/** The two translation formats of rust/peter and the conversion from the
    first to the second (translation_v0.rs, v1/chapter.rs, v1/book.rs,
    v1/meta.rs, v1/translation_v1.rs, v1/conversion.rs). */
module PeterConversion {
  import opened Wrappers
  import opened Strings
  import opened Lists
  import opened SortedMaps
  import opened PeterVerse
  import opened PeterStorage
  import BookNames

  // ---------------------------------------------------------------------------
  // The v0 format: books, chapters and verses as lists. The numbers are `u32`.

  datatype VerseV0 = VerseV0(verse: nat, chapter: nat, name: string, text: string)
  datatype ChapterV0 = ChapterV0(chapter: nat, name: string, verses: seq<VerseV0>)
  datatype BookV0 = BookV0(name: string, chapters: seq<ChapterV0>)
  datatype TranslationV0 = TranslationV0(books: seq<BookV0>)

  // ---------------------------------------------------------------------------
  // The v1 format

  /** A chapter: its verses in order and the section headings keyed by verse
      number (a `HashMap`, so a plain map). */
  datatype Chapter = Chapter(verses: seq<Verse>, sections: map<VerseNumber, string>)

  /** A book; its chapters are a `BTreeMap` keyed by chapter number. */
  datatype Book = Book(name: string, introduction: Option<string>, chapters: Entries<Chapter>)

  /** `Books`: a `BTreeMap` keyed by `BookName`, stored under the book's
      position in the `BookName` enumeration. */
  type Books = Entries<Book>

  datatype Language = English | Dutch

  /** `TranslationMetaData` with the fields the conversion fills in. The
      release year is an `i32` and the equivalence level a `u8` in the source. */
  datatype Meta = Meta(fullName: string, shortName: string, description: string, link: string,
                       release: int, languages: seq<Language>, equivalenceLevel: nat,
                       fundedBy: Option<string>)

  datatype TranslationV1 = TranslationV1(meta: Meta, books: Storage<Books>)

  datatype ConversionError =
    | BookNameParse(cause: BookNames.BookNameParseError)
    | EmptyBook(book: string)
    | EmptyChapter(book: string, chapter: nat)
    | InvalidVerseRange(start: nat, end: nat)
    | DuplicateBook(book: string)
    | InconsistentChapterNumber(book: string, chapter: nat, verse: nat, expected: nat, found: nat)

  // ---------------------------------------------------------------------------
  // Verse ids

  /** `parse_verse_id`: a verse whose text starts with a digit and holds a
      dash may begin with a span `"a-b "`: `a` is the trimmed text before the
      first dash and `b` the trimmed text between it and the next space. When
      both parse as `u32` the verse is the span (an error when it runs
      backwards); in every other case it is the single verse `verseNumber`.
      Rust tests the first character with `char::is_numeric`; a non-ASCII
      numeral there cannot start a `u32`, so that text also ends up single,
      as it does here. */
  function ParseVerseId(text: string, verseNumber: nat): (r: Result<VerseNumber, ConversionError>)
    ensures r.Ok? && r.value.Single? ==> r.value.n == verseNumber
    ensures r.Ok? && r.value.Range? ==> r.value.first <= r.value.last < U32_LIMIT
    ensures r.Err? ==> r.error.InvalidVerseRange? && r.error.start > r.error.end
    ensures (|text| == 0 || !IsDigit(text[0]) || '-' !in text) ==> r == Ok(Single(verseNumber))
  {
    if '-' in text && |text| > 0 && IsDigit(text[0]) then
      var dash := IndexOf(text, '-').value;
      var after := text[dash + 1..];
      match ParseU32(Trim(text[..dash]))
      case None => Ok(Single(verseNumber))
      case Some(start) =>
        match IndexOf(after, ' ')
        case None => Ok(Single(verseNumber))
        case Some(space) =>
          match ParseU32(Trim(after[..space]))
          case None => Ok(Single(verseNumber))
          case Some(end) =>
            if start > end then Err(InvalidVerseRange(start, end)) else Ok(Range(start, end))
    else Ok(Single(verseNumber))
  }

  /** A text `head-body rest` whose head starts with a digit and holds no dash
      and whose body holds no space is read from `head` and `body`. */
  lemma ParseVerseIdParts(head: string, body: string, rest: string, verseNumber: nat)
    requires |head| > 0 && IsDigit(head[0]) && '-' !in head && ' ' !in body
    ensures var text := head + "-" + body + " " + rest;
            var start, end := ParseU32(Trim(head)), ParseU32(Trim(body));
            ParseVerseId(text, verseNumber)
              == if start.None? || end.None? then Ok(Single(verseNumber))
                 else if start.value > end.value then Err(InvalidVerseRange(start.value, end.value))
                 else Ok(Range(start.value, end.value))
  {
    var text := head + "-" + body + " " + rest;
    var after := body + " " + rest;
    assert text == head + "-" + after;
    SplitAt(head, '-', after);
    SplitAt(body, ' ', rest);
    assert text[0] == head[0] && '-' in text;
    assert text[..|head|] == head && text[|head| + 1..] == after;
    assert after[..|body|] == body;
  }

  /** The first `c` after a `c`-free head splits the text at the head's end. */
  lemma SplitAt(head: string, c: char, tail: string)
    requires c !in head
    ensures IndexOf(head + [c] + tail, c) == Some(|head|)
    ensures (head + [c] + tail)[..|head|] == head && (head + [c] + tail)[|head| + 1..] == tail
  {
    IndexOfFirst(head, c, [c] + tail);
    assert head + [c] + tail == head + ([c] + tail);
  }

  /** A text that opens with `"a-b "` is read as that span, whatever follows. */
  lemma ParseVerseIdSpan(a: nat, b: nat, rest: string, verseNumber: nat)
    requires a < U32_LIMIT && b < U32_LIMIT
    ensures ParseVerseId(NatToString(a) + "-" + NatToString(b) + " " + rest, verseNumber)
         == if a <= b then Ok(Range(a, b)) else Err(InvalidVerseRange(a, b))
  {
    var sa, sb := NatToString(a), NatToString(b);
    assert '-' !in sa by {
      forall i | 0 <= i < |sa| ensures sa[i] != '-' { assert IsDigit(sa[i]); }
    }
    assert ' ' !in sb by {
      forall i | 0 <= i < |sb| ensures sb[i] != ' ' { assert IsDigit(sb[i]); }
    }
    NatToStringNoWhitespace(a);
    NatToStringNoWhitespace(b);
    TrimNoWhitespace(sa);
    TrimNoWhitespace(sb);
    ParseNatToString(a);
    ParseNatToString(b);
    ParseVerseIdParts(sa, sb, rest, verseNumber);
  }

  /** Without a space after the dash there is no span: the verse stays single. */
  lemma ParseVerseIdNoSpace(a: nat, b: nat, verseNumber: nat)
    requires a < U32_LIMIT && b < U32_LIMIT
    ensures ParseVerseId(NatToString(a) + "-" + NatToString(b), verseNumber) == Ok(Single(verseNumber))
  {
    var sa, sb := NatToString(a), NatToString(b);
    var text := sa + "-" + sb;
    assert '-' !in sa by {
      forall i | 0 <= i < |sa| ensures sa[i] != '-' { assert IsDigit(sa[i]); }
    }
    assert ' ' !in sb by {
      forall i | 0 <= i < |sb| ensures sb[i] != ' ' { assert IsDigit(sb[i]); }
    }
    IndexOfFirst(sa, '-', "-" + sb);
    assert text[|sa| + 1..] == sb;
  }

  // ---------------------------------------------------------------------------
  // Converting a chapter

  /** A verse's name becomes a section heading when it is non-empty and is not
      just the verse text again. */
  predicate IsSection(v: VerseV0) {
    v.name != [] && v.name != v.text
  }

  /** One verse's id: its chapter field must match the chapter it is in. */
  function VerseIdIn(book: string, chapter: nat, v: VerseV0): Result<VerseNumber, ConversionError> {
    if v.chapter != chapter then
      Err(InconsistentChapterNumber(book, chapter, v.verse, chapter, v.chapter))
    else ParseVerseId(v.text, v.verse)
  }

  /** The v1 verses: each keeps its text as content and has no footnotes. */
  function Verses(verses: seq<VerseV0>, ids: seq<VerseNumber>): (r: seq<Verse>)
    requires |ids| == |verses|
    ensures |r| == |verses|
    ensures forall i :: 0 <= i < |r| ==> r[i] == Verse(ids[i], verses[i].text, None)
  {
    seq(|verses|, i requires 0 <= i < |verses| => Verse(ids[i], verses[i].text, None))
  }

  /** The section headings, collected into a map: a later verse with the same
      id overwrites an earlier one. */
  function Sections(verses: seq<VerseV0>, ids: seq<VerseNumber>): (r: map<VerseNumber, string>)
    requires |ids| == |verses|
    ensures forall k :: k in r <==> exists i :: 0 <= i < |verses| && ids[i] == k && IsSection(verses[i])
    decreases |verses|
  {
    if |verses| == 0 then map[]
    else
      var n := |verses| - 1;
      var rest := Sections(verses[..n], ids[..n]);
      assert forall i :: 0 <= i < n ==> verses[..n][i] == verses[i] && ids[..n][i] == ids[i];
      if IsSection(verses[n]) then rest[ids[n] := verses[n].name] else rest
  }

  /** The heading kept under an id is the name of the last section verse with
      that id. */
  lemma {:induction false} SectionsLastWins(verses: seq<VerseV0>, ids: seq<VerseNumber>, i: nat)
    requires |ids| == |verses| && i < |verses| && IsSection(verses[i])
    requires forall j :: i < j < |verses| ==> !(ids[j] == ids[i] && IsSection(verses[j]))
    ensures ids[i] in Sections(verses, ids) && Sections(verses, ids)[ids[i]] == verses[i].name
    decreases |verses|
  {
    var n := |verses| - 1;
    if i < n {
      var vs, ks := verses[..n], ids[..n];
      assert vs[i] == verses[i] && ks[i] == ids[i];
      forall j | i < j < n ensures !(ks[j] == ks[i] && IsSection(vs[j])) {
        assert vs[j] == verses[j] && ks[j] == ids[j];
      }
      SectionsLastWins(vs, ks, i);
    }
  }

  /** `Chapter` from a v0 chapter: empty chapters are refused, then each verse
      in order is checked and numbered; the first failure is the result. */
  function ConvertChapter(book: string, c: ChapterV0): (r: Result<(int, Chapter), ConversionError>)
    ensures r == Err(EmptyChapter(book, c.chapter)) <==> |c.verses| == 0
    ensures r.Ok? ==> r.value.0 == c.chapter && |r.value.1.verses| == |c.verses|
    ensures r.Ok? ==> forall i :: 0 <= i < |c.verses| ==>
                        c.verses[i].chapter == c.chapter
                        && ParseVerseId(c.verses[i].text, c.verses[i].verse) == Ok(r.value.1.verses[i].number)
                        && r.value.1.verses[i].content == c.verses[i].text
                        && r.value.1.verses[i].footnotes == None
    ensures r.Ok? ==> forall k :: k in r.value.1.sections <==>
                        exists i :: 0 <= i < |c.verses| && r.value.1.verses[i].number == k && IsSection(c.verses[i])
    ensures r.Err? && |c.verses| > 0 ==> exists i :: 0 <= i < |c.verses| && VerseIdIn(book, c.chapter, c.verses[i]) == Err(r.error)
  {
    if |c.verses| == 0 then Err(EmptyChapter(book, c.chapter))
    else
      match Collect(c.verses, v => VerseIdIn(book, c.chapter, v))
      case Err(e) => Err(e)
      case Ok(ids) => Ok((c.chapter, Chapter(Verses(c.verses, ids), Sections(c.verses, ids))))
  }

  // ---------------------------------------------------------------------------
  // Converting the books

  /** `BookName::try_from` on a v0 book's name. */
  function NameOf(b: BookV0): Result<BookNames.BookName, ConversionError> {
    match BookNames.Parse(b.name)
    case Ok(n) => Ok(n)
    case Err(e) => Err(BookNameParse(e))
  }

  /** The book at `i` shares its name with another one. */
  predicate Repeated(names: seq<BookNames.BookName>, i: nat)
    requires i < |names|
  {
    exists j :: 0 <= j < |names| && j != i && names[j] == names[i]
  }

  /** The first book, from `from` on, whose name occurs more than once. */
  function FirstRepeated(names: seq<BookNames.BookName>, from: nat): (r: nat)
    requires from <= |names|
    requires exists i :: from <= i < |names| && Repeated(names, i)
    ensures from <= r < |names| && Repeated(names, r)
    ensures forall i :: from <= i < r ==> !Repeated(names, i)
    decreases |names| - from
  {
    if Repeated(names, from) then from else FirstRepeated(names, from + 1)
  }

  /** Some book shares its name with another one when the names are not
      distinct, so the search for the first such book always succeeds. */
  lemma NotDistinctRepeated(names: seq<BookNames.BookName>)
    requires !Distinct(names)
    ensures exists i :: 0 <= i < |names| && Repeated(names, i)
  {
    var i, j :| 0 <= i < j < |names| && names[i] == names[j];
    assert j != i && names[j] == names[i];
    assert Repeated(names, i);
  }

  /** Each book next to its parsed name. */
  function Pairing(names: seq<BookNames.BookName>, books: seq<BookV0>): (r: seq<(BookNames.BookName, BookV0)>)
    requires |names| == |books|
    ensures |r| == |names| && forall i :: 0 <= i < |r| ==> r[i] == (names[i], books[i])
  {
    seq(|names|, i requires 0 <= i < |names| => (names[i], books[i]))
  }

  /** A v1 book from a v0 book with its parsed name. */
  function ConvertBook(named: (BookNames.BookName, BookV0)): (r: Result<(int, Book), ConversionError>)
    ensures r == Err(EmptyBook(named.1.name)) <==> |named.1.chapters| == 0
    ensures r.Ok? ==> r.value.0 == named.0 as int && r.value.1.name == named.1.name
                      && r.value.1.introduction == None
    ensures r.Ok? ==> forall i :: 0 <= i < |named.1.chapters| ==> ConvertChapter(named.1.name, named.1.chapters[i]).Ok?
  {
    var (name, book) := named;
    if |book.chapters| == 0 then Err(EmptyBook(book.name))
    else
      match Collect(book.chapters, c => ConvertChapter(book.name, c))
      case Err(e) => Err(e)
      case Ok(pairs) => Ok((name as int, Book(book.name, None, FromList(pairs))))
  }

  /** The converted book has one chapter per distinct chapter number of the
      v0 book. */
  lemma ConvertBookChapters(named: (BookNames.BookName, BookV0), n: int)
    requires ConvertBook(named).Ok?
    ensures Get(ConvertBook(named).value.1.chapters, n).Some? <==>
              exists i :: 0 <= i < |named.1.chapters| && named.1.chapters[i].chapter == n
  {
    var book := named.1;
    var pairs := Collect(book.chapters, c => ConvertChapter(book.name, c)).value;
    LastValueFound(pairs, n);
    assert forall i :: 0 <= i < |pairs| ==> pairs[i].0 == book.chapters[i].chapter;
  }

  /** `TryFrom<TranslationV0> for Books`: every name is parsed first (the first
      unknown one is the error), then a repeated name is refused, then the
      books are converted in order and the first failure is the result. */
  function ConvertBooks(t: TranslationV0): (r: Result<Books, ConversionError>)
    ensures r.Ok? ==> Ascending(r.value)
  {
    match Collect(t.books, NameOf)
    case Err(e) => Err(e)
    case Ok(names) =>
      if !Distinct(names) then
        NotDistinctRepeated(names);
        Err(DuplicateBook(t.books[FirstRepeated(names, 0)].name))
      else
        match Collect(Pairing(names, t.books), ConvertBook)
        case Err(e) => Err(e)
        case Ok(pairs) => Ok(FromList(pairs))
  }

  /** The names are read before anything else: an unknown name is reported
      before any other problem, and it is the first unknown name. */
  lemma UnknownNameFirst(t: TranslationV0, i: nat)
    requires i < |t.books| && BookNames.Parse(t.books[i].name).Err?
    requires forall j :: 0 <= j < i ==> BookNames.Parse(t.books[j].name).Ok?
    ensures ConvertBooks(t) == Err(BookNameParse(BookNames.Parse(t.books[i].name).error))
  {
    var c := Collect(t.books, NameOf);
    assert NameOf(t.books[i]).Err?;
    assert forall j :: 0 <= j < i ==> NameOf(t.books[j]).Ok?;
    var k :| 0 <= k < |t.books| && NameOf(t.books[k]) == Err(c.error) && forall j :: 0 <= j < k ==> NameOf(t.books[j]).Ok?;
    assert k == i;
  }

  /** Two books whose names parse to the same `BookName` are refused, before
      any book's content is looked at. */
  lemma DuplicateRefused(t: TranslationV0, i: nat, j: nat)
    requires i < j < |t.books|
    requires forall k :: 0 <= k < |t.books| ==> BookNames.Parse(t.books[k].name).Ok?
    requires BookNames.Parse(t.books[i].name) == BookNames.Parse(t.books[j].name)
    ensures ConvertBooks(t).Err? && ConvertBooks(t).error.DuplicateBook?
  {
    var c := Collect(t.books, NameOf);
    CollectOk(t.books, NameOf);
    assert c.Ok? by {
      forall k | 0 <= k < |t.books| ensures NameOf(t.books[k]).Ok? {
        assert BookNames.Parse(t.books[k].name).Ok?;
      }
    }
    var names := c.value;
    assert names[i] == names[j] by {
      assert NameOf(t.books[i]) == Ok(names[i]) && NameOf(t.books[j]) == Ok(names[j]);
    }
    assert !Distinct(names);
  }

  /** Success stores each converted v0 book under its parsed name. */
  lemma ConvertedEntry(t: TranslationV0, i: nat)
    requires ConvertBooks(t).Ok? && i < |t.books|
    ensures NameOf(t.books[i]).Ok?
    ensures var named := (NameOf(t.books[i]).value, t.books[i]);
            ConvertBook(named).Ok?
            && Get(ConvertBooks(t).value, ConvertBook(named).value.0) == Some(ConvertBook(named).value.1)
  {
    var names := Collect(t.books, NameOf).value;
    assert NameOf(t.books[i]) == Ok(names[i]);
    var named := Pairing(names, t.books);
    var pairs := Collect(named, ConvertBook).value;
    assert ConvertBook(named[i]) == Ok(pairs[i]);
    PairsDistinct(names, t.books, pairs);
    FromListDistinct(pairs, i);
  }

  /** Converted books keep their names' positions as keys, so distinct names
      give distinct keys. */
  lemma PairsDistinct(names: seq<BookNames.BookName>, books: seq<BookV0>, pairs: seq<(int, Book)>)
    requires |names| == |books| && Distinct(names)
    requires Collect(Pairing(names, books), ConvertBook) == Ok(pairs)
    ensures forall a, b :: 0 <= a < b < |pairs| ==> pairs[a].0 != pairs[b].0
  {
    var named := Pairing(names, books);
    forall a, b | 0 <= a < b < |pairs| ensures pairs[a].0 != pairs[b].0 {
      assert ConvertBook(named[a]) == Ok(pairs[a]) && ConvertBook(named[b]) == Ok(pairs[b]);
      assert names[a] != names[b];
    }
  }

  /** Success means every name was known, and each v0 book reappears under
      its name with its own name, no introduction and one chapter per
      distinct chapter number. */
  lemma ConvertedBook(t: TranslationV0, i: nat)
    requires ConvertBooks(t).Ok? && i < |t.books|
    ensures BookNames.Parse(t.books[i].name).Ok?
    ensures var key := BookNames.Parse(t.books[i].name).value as int;
            var got := Get(ConvertBooks(t).value, key);
            got.Some? && got.value.name == t.books[i].name && got.value.introduction == None
            && (forall n: int :: Get(got.value.chapters, n).Some? <==>
                  exists c :: 0 <= c < |t.books[i].chapters| && t.books[i].chapters[c].chapter == n)
  {
    ConvertedEntry(t, i);
    var named := (NameOf(t.books[i]).value, t.books[i]);
    forall n: int ensures Get(ConvertBook(named).value.1.chapters, n).Some? <==>
                            exists c :: 0 <= c < |t.books[i].chapters| && t.books[i].chapters[c].chapter == n {
      ConvertBookChapters(named, n);
    }
  }

  /** Success means no book and no chapter was empty and every verse sat in
      the chapter its own chapter field names. */
  lemma ConvertedComplete(t: TranslationV0, i: nat, c: nat, v: nat)
    requires ConvertBooks(t).Ok? && i < |t.books|
    ensures |t.books[i].chapters| > 0
    ensures c < |t.books[i].chapters| ==> |t.books[i].chapters[c].verses| > 0
    ensures c < |t.books[i].chapters| && v < |t.books[i].chapters[c].verses| ==>
              t.books[i].chapters[c].verses[v].chapter == t.books[i].chapters[c].chapter
  {
    var names := Collect(t.books, NameOf).value;
    var named := Pairing(names, t.books);
    var pairs := Collect(named, ConvertBook).value;
    assert ConvertBook(named[i]) == Ok(pairs[i]);
    if c < |t.books[i].chapters| {
      assert ConvertChapter(t.books[i].name, t.books[i].chapters[c]).Ok?;
    }
  }

  // ---------------------------------------------------------------------------
  // Translations

  /** The metadata the v0 conversion puts in, to be replaced later. The URL
      parser writes the empty path of `https://example.com` as `/`. */
  const PlaceholderMeta := Meta("Placeholder", "PH", "Placeholder metadata - to be replaced during migration",
                                "https://example.com/", 2000, [English], 128, None)

  /** `TryFrom<TranslationV0> for TranslationV1`: the converted books, held
      locally, with the placeholder metadata. */
  function ConvertTranslation(t: TranslationV0): (r: Result<TranslationV1, ConversionError>)
    ensures r.Ok? <==> ConvertBooks(t).Ok?
    ensures r.Ok? ==> r.value.meta == PlaceholderMeta && LocalData(r.value.books) == Some(ConvertBooks(t).value)
    ensures r.Err? ==> r.error == ConvertBooks(t).error
  {
    match ConvertBooks(t)
    case Err(e) => Err(e)
    case Ok(books) => Ok(TranslationV1(PlaceholderMeta, Local(books)))
  }

  /** `build_v1`: given books and metadata, a translation holding the books
      locally. */
  function BuildV1(books: Books, meta: Meta): (r: TranslationV1)
    ensures IsLocal(r.books) && LocalData(r.books) == Some(books) && r.meta == meta
  {
    TranslationV1(meta, Local(books))
  }
}
