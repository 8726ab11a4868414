/** The cross-references panel: the book names it translates between the
    names chapters are displayed under and the canonical English names of the
    cross-reference data, the link and the text a reference shows, the vote
    label, the order references are listed in, and moving the selection
    through them from the keyboard. */
module CrossReferences {
  import opened Wrappers
  import opened Strings
  import opened Percent
  import opened Arithmetic
  import opened BibleCore
  import opened QueryParams
  import UrlHelpers
  import TranslationMap

  /** A cross-reference target: a book (by canonical name), a chapter, a first
      verse and an optional last verse, with the community's vote count (a
      signed 32-bit number). */
  datatype Reference = Reference(
    toBook: string, toChapter: nat, toVerseStart: nat, toVerseEnd: Option<nat>, votes: int)

  const I32_MIN: int := -0x8000_0000
  const I32_MAX: int := 0x7FFF_FFFF

  predicate IsI32(v: int) {
    I32_MIN <= v <= I32_MAX
  }

  // ---------------------------------------------------------------------------
  // Book names

  /** `get_canonical_book_name`, as written: display names (English roman
      numerals, other titles of Revelation, and the Dutch names) to the
      canonical English name; any other name is returned unchanged. The Dutch
      keys with an accented letter are spelled in the source with the
      characters that the letter's UTF-8 bytes stand for in the Mac Roman
      encoding (`\U{221A}\U{B4}` for `\U{EB}`), kept here exactly so.

      The keys are distinct literals, so the order of the arms does not
      matter; they are grouped here by their characters (first the first
      character, then the next one that tells a group apart), which leaves the
      function the same as the source's single match. */
  function CanonicalBookName(name: string): string {
    if |name| == 0 then name
    else match name[0]
    case 'I' =>
      (if |name| <= 1 then name
      else match name[1]
      case ' ' =>
        (if |name| <= 2 then name
        else match name[2]
        case 'S' =>
          (match name
          case "I Samuel" => "1 Samuel"
          case "I Samu\U{221A}\U{B4}l" => "1 Samuel"
          case _ => name)
        case 'K' =>
          (match name
          case "I Kings" => "1 Kings"
          case "I Koningen" => "1 Kings"
          case "I Kronieken" => "1 Chronicles"
          case "I Korinti\U{221A}\U{B4}rs" => "1 Corinthians"
          case _ => name)
        case 'C' =>
          (match name
          case "I Chronicles" => "1 Chronicles"
          case "I Corinthians" => "1 Corinthians"
          case _ => name)
        case 'T' =>
          (match name
          case "I Thessalonians" => "1 Thessalonians"
          case "I Timothy" => "1 Timothy"
          case "I Tessalonicenzen" => "1 Thessalonians"
          case "I Timote\U{221A}\U{BA}s" => "1 Timothy"
          case _ => name)
        case 'P' =>
          (match name
          case "I Peter" => "1 Peter"
          case "I Petrus" => "1 Peter"
          case _ => name)
        case 'J' =>
          (match name
          case "I John" => "1 John"
          case "I Johannes" => "1 John"
          case _ => name)
        case _ => name)
      case 'I' =>
        (if |name| <= 2 then name
        else match name[2]
        case ' ' =>
          (if |name| <= 3 then name
          else match name[3]
          case 'S' =>
            (match name
            case "II Samuel" => "2 Samuel"
            case "II Samu\U{221A}\U{B4}l" => "2 Samuel"
            case _ => name)
          case 'K' =>
            (match name
            case "II Kings" => "2 Kings"
            case "II Koningen" => "2 Kings"
            case "II Kronieken" => "2 Chronicles"
            case "II Korinti\U{221A}\U{B4}rs" => "2 Corinthians"
            case _ => name)
          case 'C' =>
            (match name
            case "II Chronicles" => "2 Chronicles"
            case "II Corinthians" => "2 Corinthians"
            case _ => name)
          case 'T' =>
            (match name
            case "II Thessalonians" => "2 Thessalonians"
            case "II Timothy" => "2 Timothy"
            case "II Tessalonicenzen" => "2 Thessalonians"
            case "II Timote\U{221A}\U{BA}s" => "2 Timothy"
            case _ => name)
          case 'P' =>
            (match name
            case "II Peter" => "2 Peter"
            case "II Petrus" => "2 Peter"
            case _ => name)
          case 'J' =>
            (match name
            case "II John" => "2 John"
            case "II Johannes" => "2 John"
            case _ => name)
          case _ => name)
        case 'I' =>
          (match name
          case "III John" => "3 John"
          case "III Johannes" => "3 John"
          case _ => name)
        case _ => name)
      case _ => name)
    case 'R' =>
      (match name
      case "Revelation of John" => "Revelation"
      case "Romeinen" => "Romans"
      case _ => name)
    case 'T' =>
      (match name
      case "The Revelation" => "Revelation"
      case "The Revelation of John" => "Revelation"
      case "Titus" => "Titus"
      case _ => name)
    case 'P' =>
      (match name
      case "Psalmen" => "Psalms"
      case "Prediker" => "Ecclesiastes"
      case _ => name)
    case 'H' =>
      (if |name| <= 1 then name
      else match name[1]
      case 'o' =>
        (match name
        case "Hooglied" => "Song of Solomon"
        case _ => name)
      case 'a' =>
        (match name
        case "Habakuk" => "Habakkuk"
        case "Hagga\U{221A}\U{D8}" => "Haggai"
        case "Handelingen" => "Acts"
        case _ => name)
      case 'e' =>
        (match name
        case "Hebree\U{221A}\U{B4}n" => "Hebrews"
        case _ => name)
      case _ => name)
    case 'J' =>
      (if |name| <= 1 then name
      else match name[1]
      case 'e' =>
        (match name
        case "Jesaja" => "Isaiah"
        case "Jeremia" => "Jeremiah"
        case _ => name)
      case 'o' =>
        (match name
        case "Jo\U{221A}\U{B4}l" => "Joel"
        case "Johannes" => "John"
        case _ => name)
      case 'a' =>
        (match name
        case "Jakobus" => "James"
        case _ => name)
      case 'u' =>
        (match name
        case "Judas" => "Jude"
        case _ => name)
      case _ => name)
    case 'K' =>
      (match name
      case "Klaagliederen" => "Lamentations"
      case "Kolossenzen" => "Colossians"
      case _ => name)
    case 'E' =>
      (match name
      case "Ezechi\U{221A}\U{B4}l" => "Ezekiel"
      case "Efezi\U{221A}\U{B4}rs" => "Ephesians"
      case _ => name)
    case 'D' =>
      (match name
      case "Dani\U{221A}\U{B4}l" => "Daniel"
      case _ => name)
    case 'M' =>
      (match name
      case "Micha" => "Micah"
      case "Maleachi" => "Malachi"
      case "Matte\U{221A}\U{BA}s" => "Matthew"
      case "Marcus" => "Mark"
      case _ => name)
    case 'Z' =>
      (match name
      case "Zefanja" => "Zephaniah"
      case "Zacharia" => "Zechariah"
      case _ => name)
    case 'L' =>
      (match name
      case "Lucas" => "Luke"
      case _ => name)
    case 'G' =>
      (match name
      case "Galaten" => "Galatians"
      case _ => name)
    case 'F' =>
      (match name
      case "Filippenzen" => "Philippians"
      case "Filemon" => "Philemon"
      case _ => name)
    case 'O' =>
      (match name
      case "Openbaring" => "Revelation"
      case "Openbaringen" => "Revelation"
      case _ => name)
    case _ => name
  }

  /** The canonical-name table with the Dutch keys spelled with their accented
      letters, as the Dutch translation names those books. The lookup of
      references by canonical name is not modelled, so no other operation
      here calls either table. */
  function CanonicalBookNameIntended(name: string): string {
    if |name| == 0 then name
    else match name[0]
    case 'I' =>
      (if |name| <= 1 then name
      else match name[1]
      case ' ' =>
        (if |name| <= 2 then name
        else match name[2]
        case 'S' =>
          (match name
          case "I Samuel" => "1 Samuel"
          case "I Samu\U{EB}l" => "1 Samuel"
          case _ => name)
        case 'K' =>
          (match name
          case "I Kings" => "1 Kings"
          case "I Koningen" => "1 Kings"
          case "I Kronieken" => "1 Chronicles"
          case "I Korinti\U{EB}rs" => "1 Corinthians"
          case _ => name)
        case 'C' =>
          (match name
          case "I Chronicles" => "1 Chronicles"
          case "I Corinthians" => "1 Corinthians"
          case _ => name)
        case 'T' =>
          (match name
          case "I Thessalonians" => "1 Thessalonians"
          case "I Timothy" => "1 Timothy"
          case "I Tessalonicenzen" => "1 Thessalonians"
          case "I Timote\U{FC}s" => "1 Timothy"
          case _ => name)
        case 'P' =>
          (match name
          case "I Peter" => "1 Peter"
          case "I Petrus" => "1 Peter"
          case _ => name)
        case 'J' =>
          (match name
          case "I John" => "1 John"
          case "I Johannes" => "1 John"
          case _ => name)
        case _ => name)
      case 'I' =>
        (if |name| <= 2 then name
        else match name[2]
        case ' ' =>
          (if |name| <= 3 then name
          else match name[3]
          case 'S' =>
            (match name
            case "II Samuel" => "2 Samuel"
            case "II Samu\U{EB}l" => "2 Samuel"
            case _ => name)
          case 'K' =>
            (match name
            case "II Kings" => "2 Kings"
            case "II Koningen" => "2 Kings"
            case "II Kronieken" => "2 Chronicles"
            case "II Korinti\U{EB}rs" => "2 Corinthians"
            case _ => name)
          case 'C' =>
            (match name
            case "II Chronicles" => "2 Chronicles"
            case "II Corinthians" => "2 Corinthians"
            case _ => name)
          case 'T' =>
            (match name
            case "II Thessalonians" => "2 Thessalonians"
            case "II Timothy" => "2 Timothy"
            case "II Tessalonicenzen" => "2 Thessalonians"
            case "II Timote\U{FC}s" => "2 Timothy"
            case _ => name)
          case 'P' =>
            (match name
            case "II Peter" => "2 Peter"
            case "II Petrus" => "2 Peter"
            case _ => name)
          case 'J' =>
            (match name
            case "II John" => "2 John"
            case "II Johannes" => "2 John"
            case _ => name)
          case _ => name)
        case 'I' =>
          (match name
          case "III John" => "3 John"
          case "III Johannes" => "3 John"
          case _ => name)
        case _ => name)
      case _ => name)
    case 'R' =>
      (match name
      case "Revelation of John" => "Revelation"
      case "Romeinen" => "Romans"
      case _ => name)
    case 'T' =>
      (match name
      case "The Revelation" => "Revelation"
      case "The Revelation of John" => "Revelation"
      case "Titus" => "Titus"
      case _ => name)
    case 'P' =>
      (match name
      case "Psalmen" => "Psalms"
      case "Prediker" => "Ecclesiastes"
      case _ => name)
    case 'H' =>
      (if |name| <= 1 then name
      else match name[1]
      case 'o' =>
        (match name
        case "Hooglied" => "Song of Solomon"
        case _ => name)
      case 'a' =>
        (match name
        case "Habakuk" => "Habakkuk"
        case "Hagga\U{EF}" => "Haggai"
        case "Handelingen" => "Acts"
        case _ => name)
      case 'e' =>
        (match name
        case "Hebree\U{EB}n" => "Hebrews"
        case _ => name)
      case _ => name)
    case 'J' =>
      (if |name| <= 1 then name
      else match name[1]
      case 'e' =>
        (match name
        case "Jesaja" => "Isaiah"
        case "Jeremia" => "Jeremiah"
        case _ => name)
      case 'o' =>
        (match name
        case "Jo\U{EB}l" => "Joel"
        case "Johannes" => "John"
        case _ => name)
      case 'a' =>
        (match name
        case "Jakobus" => "James"
        case _ => name)
      case 'u' =>
        (match name
        case "Judas" => "Jude"
        case _ => name)
      case _ => name)
    case 'K' =>
      (match name
      case "Klaagliederen" => "Lamentations"
      case "Kolossenzen" => "Colossians"
      case _ => name)
    case 'E' =>
      (match name
      case "Ezechi\U{EB}l" => "Ezekiel"
      case "Efezi\U{EB}rs" => "Ephesians"
      case _ => name)
    case 'D' =>
      (match name
      case "Dani\U{EB}l" => "Daniel"
      case _ => name)
    case 'M' =>
      (match name
      case "Micha" => "Micah"
      case "Maleachi" => "Malachi"
      case "Matte\U{FC}s" => "Matthew"
      case "Marcus" => "Mark"
      case _ => name)
    case 'Z' =>
      (match name
      case "Zefanja" => "Zephaniah"
      case "Zacharia" => "Zechariah"
      case _ => name)
    case 'L' =>
      (match name
      case "Lucas" => "Luke"
      case _ => name)
    case 'G' =>
      (match name
      case "Galaten" => "Galatians"
      case _ => name)
    case 'F' =>
      (match name
      case "Filippenzen" => "Philippians"
      case "Filemon" => "Philemon"
      case _ => name)
    case 'O' =>
      (match name
      case "Openbaring" => "Revelation"
      case "Openbaringen" => "Revelation"
      case _ => name)
    case _ => name
  }

  /** `get_display_book_name`: the canonical names whose display name differs
      (numbered books in roman numerals, and Revelation); any other name is
      returned unchanged. */
  function DisplayBookName(name: string): string {
    if |name| == 0 then name
    else match name[0]
    case 'R' =>
      (match name
      case "Revelation" => "Revelation of John"
      case _ => name)
    case '1' =>
      (if |name| <= 2 then name
      else match name[2]
      case 'S' =>
        (match name
        case "1 Samuel" => "I Samuel"
        case _ => name)
      case 'K' =>
        (match name
        case "1 Kings" => "I Kings"
        case _ => name)
      case 'C' =>
        (match name
        case "1 Chronicles" => "I Chronicles"
        case "1 Corinthians" => "I Corinthians"
        case _ => name)
      case 'T' =>
        (match name
        case "1 Thessalonians" => "I Thessalonians"
        case "1 Timothy" => "I Timothy"
        case _ => name)
      case 'P' =>
        (match name
        case "1 Peter" => "I Peter"
        case _ => name)
      case 'J' =>
        (match name
        case "1 John" => "I John"
        case _ => name)
      case _ => name)
    case '2' =>
      (if |name| <= 2 then name
      else match name[2]
      case 'S' =>
        (match name
        case "2 Samuel" => "II Samuel"
        case _ => name)
      case 'K' =>
        (match name
        case "2 Kings" => "II Kings"
        case _ => name)
      case 'C' =>
        (match name
        case "2 Chronicles" => "II Chronicles"
        case "2 Corinthians" => "II Corinthians"
        case _ => name)
      case 'T' =>
        (match name
        case "2 Thessalonians" => "II Thessalonians"
        case "2 Timothy" => "II Timothy"
        case _ => name)
      case 'P' =>
        (match name
        case "2 Peter" => "II Peter"
        case _ => name)
      case 'J' =>
        (match name
        case "2 John" => "II John"
        case _ => name)
      case _ => name)
    case '3' =>
      (match name
      case "3 John" => "III John"
      case _ => name)
    case _ => name
  }

  /** Every canonical name the display table renames comes back from the
      canonical table unchanged: the two tables are inverse on these names. */
  lemma FirstBooksRoundTrip()
    ensures CanonicalBookName(DisplayBookName("1 Samuel")) == "1 Samuel"
    ensures CanonicalBookName(DisplayBookName("1 Kings")) == "1 Kings"
    ensures CanonicalBookName(DisplayBookName("1 Chronicles")) == "1 Chronicles"
    ensures CanonicalBookName(DisplayBookName("1 Corinthians")) == "1 Corinthians"
    ensures CanonicalBookName(DisplayBookName("1 Thessalonians")) == "1 Thessalonians"
    ensures CanonicalBookName(DisplayBookName("1 Timothy")) == "1 Timothy"
    ensures CanonicalBookName(DisplayBookName("1 Peter")) == "1 Peter"
    ensures CanonicalBookName(DisplayBookName("1 John")) == "1 John"
  {
  }

  lemma SecondBooksRoundTrip()
    ensures CanonicalBookName(DisplayBookName("2 Samuel")) == "2 Samuel"
    ensures CanonicalBookName(DisplayBookName("2 Kings")) == "2 Kings"
    ensures CanonicalBookName(DisplayBookName("2 Chronicles")) == "2 Chronicles"
    ensures CanonicalBookName(DisplayBookName("2 Corinthians")) == "2 Corinthians"
    ensures CanonicalBookName(DisplayBookName("2 Thessalonians")) == "2 Thessalonians"
    ensures CanonicalBookName(DisplayBookName("2 Timothy")) == "2 Timothy"
    ensures CanonicalBookName(DisplayBookName("2 Peter")) == "2 Peter"
    ensures CanonicalBookName(DisplayBookName("2 John")) == "2 John"
  {
  }

  lemma ThirdJohnRevelationRoundTrip()
    ensures CanonicalBookName(DisplayBookName("Revelation")) == "Revelation"
    ensures CanonicalBookName(DisplayBookName("3 John")) == "3 John"
  {
  }

  /** All the English titles of Revelation lead to "Revelation", and the
      Dutch ones do too. */
  lemma RevelationTitles()
    ensures CanonicalBookNameIntended("Revelation of John") == "Revelation"
    ensures CanonicalBookNameIntended("The Revelation") == "Revelation"
    ensures CanonicalBookNameIntended("The Revelation of John") == "Revelation"
    ensures CanonicalBookNameIntended("Openbaring") == "Revelation"
    ensures CanonicalBookNameIntended("Openbaringen") == "Revelation"
  {
  }

  /** The Dutch names of Matthew and 1 Samuel, as the Dutch translation spells
      them, are not keys of the table as written: the panel looks them up
      under their own names and finds no references. The corrected table
      finds them. */
  lemma DutchAccentedNames()
    ensures CanonicalBookName("Matte\U{FC}s") == "Matte\U{FC}s"
    ensures CanonicalBookName("I Samu\U{EB}l") == "I Samu\U{EB}l"
    ensures CanonicalBookNameIntended("Matte\U{FC}s") == "Matthew"
    ensures CanonicalBookNameIntended("I Samu\U{EB}l") == "1 Samuel"
  {
  }

  // ---------------------------------------------------------------------------
  // Links and labels

  /** `max(verse_start, 1)` and, with a last verse, `max(end, start)`: the
      range a reference's link selects. */
  function LinkedRange(r: Reference): (v: VerseRange)
    ensures 1 <= v.start <= v.end
    ensures v.start == Max(r.toVerseStart, 1)
    ensures r.toVerseEnd.None? ==> v.end == v.start
  {
    var s := Max(r.toVerseStart, 1);
    match r.toVerseEnd
    case Some(e) => VerseRange(s, Max(e, s))
    case None => VerseRange(s, s)
  }

  /** The path part of `reference_to_url`: the display name, percent-encoded,
      then the chapter (at least 1). */
  function ReferencePath(r: Reference): string {
    "/" + Encode(DisplayBookName(r.toBook)) + "/" + NatToString(Max(r.toChapter, 1))
  }

  /** The query part of `reference_to_url`: `verses=s-e` when the reference
      has a last verse (even when it equals the first), `verses=s` otherwise. */
  function ReferenceQuery(r: Reference): string {
    var v := LinkedRange(r);
    if r.toVerseEnd.Some? then VersesKey + NatToString(v.start) + "-" + NatToString(v.end)
    else VersesKey + NatToString(v.start)
  }

  /** `reference_to_url`. */
  function ReferenceToUrl(r: Reference): string {
    ReferencePath(r) + "?" + ReferenceQuery(r)
  }

  /** The link of a reference opens the referenced chapter: its path parses
      back to the display name of the book and the chapter number (at least
      1), whenever the decoder inverts percent-encoding. */
  lemma ReferencePathParses(r: Reference, decode: string -> Option<string>)
    requires InvertsEncode(decode)
    requires DisplayBookName(r.toBook) != "" && r.toChapter < U32_LIMIT
    ensures UrlHelpers.ParseBookChapterFromUrl(ReferencePath(r), decode)
         == Some((DisplayBookName(r.toBook), Max(r.toChapter, 1)))
  {
    var name := DisplayBookName(r.toBook);
    var e := Encode(name);
    var n := Max(r.toChapter, 1);
    EncodeHasNoSeparators(name);
    ParseNatToString(n);
    NumberSeparators(n);
    UrlHelpers.ParseTwoSegments(e, NatToString(n), decode);
  }

  /** ... and its query selects exactly the linked range. */
  lemma ReferenceQueryParses(r: Reference)
    requires r.toVerseStart < U32_LIMIT
    requires r.toVerseEnd.Some? ==> r.toVerseEnd.value < U32_LIMIT
    ensures VerseRanges(ReferenceQuery(r)) == [LinkedRange(r)]
  {
    var v := LinkedRange(r);
    var a := NatToString(v.start);
    if r.toVerseEnd.Some? {
      var t := a + "-" + NatToString(v.end);
      assert ReferenceQuery(r) == VersesKey + t;
      FromStringPair(v.start, v.end);
      PairSeparators(v.start, v.end);
      SingleRangeQuery(t, v);
    } else {
      assert ReferenceQuery(r) == VersesKey + a;
      ParseTrimmedNumber(v.start);
      NumberSeparators(v.start);
      SingleRangeQuery(a, v);
    }
  }

  /** A number's digits hold none of the separators of a link or a
      reference text. */
  lemma NumberSeparators(n: nat)
    ensures '&' !in NatToString(n) && '=' !in NatToString(n) && ',' !in NatToString(n)
    ensures '-' !in NatToString(n) && ':' !in NatToString(n) && '/' !in NatToString(n)
  {
    assert AllDigits(NatToString(n));
  }

  lemma PairSeparators(a: nat, b: nat)
    ensures var t := NatToString(a) + "-" + NatToString(b);
      '&' !in t && '=' !in t && ',' !in t && ':' !in t
  {
    NumberSeparators(a);
    NumberSeparators(b);
  }

  /** A `verses=` query whose value is a single range text holds that range. */
  lemma SingleRangeQuery(t: string, v: VerseRange)
    requires '&' !in t && '=' !in t && ',' !in t
    requires FromString(t) == Some(v)
    ensures VerseRanges(VersesKey + t) == [v]
  {
    VerseRangesAgree(VersesKey + t);
    SingleRangeParam(t, v);
  }

  lemma SingleRangeParam(t: string, v: VerseRange)
    requires '&' !in t && '=' !in t && ',' !in t
    requires FromString(t) == Some(v)
    ensures ParseVerseRangesFromUrl(VersesKey + t) == [v]
  {
    VersesValueOfParam(t);
    SplitNoSep(t, ',');
    FilterSingle(t, v);
  }

  lemma FilterSingle(t: string, v: VerseRange)
    requires FromString(t) == Some(v)
    ensures FilterRanges([t]) == [v]
  {
    var opts := Parses([t]);
    assert opts[0] == Some(v);
    assert opts == [Some(v)];
    SomesSingle(v);
  }

  lemma SomesSingle<T>(x: T)
    ensures Somes([Some(x)]) == [x]
  {
    assert [Some(x)][1..] == [];
  }

  /** The one parameter `verses=t` has the value `t`. */
  lemma VersesValueOfParam(t: string)
    requires '&' !in t && '=' !in t
    ensures FirstVersesValue(Split(VersesKey + t, '&')) == Some(t)
  {
    var q := VersesKey + t;
    assert '&' !in q;
    assert OccursAt(q, VersesKey, 0);
    SplitNoSep(q, '&');
    VersesValueOfPrefix(q);
    assert q[7..] == t;
    SplitNoSep(t, '=');
  }

  /** The location part of `format_reference_text`: `chapter:start` or
      `chapter:start-end`, the numbers as stored. */
  function VerseSpan(r: Reference): string {
    match r.toVerseEnd
    case Some(e) => NatToString(r.toVerseStart) + "-" + NatToString(e)
    case None => NatToString(r.toVerseStart)
  }

  /** `get_translated_book_name`: the name in the current translation, looked
      up under the lower-cased name with `_` for spaces, or the name itself. */
  function TranslatedBookName(current: Option<TranslationMap.Translation>, name: string): (r: string)
    ensures current.None? ==> r == name
  {
    match current
    case None => name
    case Some(t) =>
      match TranslationMap.Get(t, ReplaceChar(ToLower(name), ' ', '_'))
      case Some(translated) => translated
      case None => name
  }

  /** `chapter:start` or `chapter:start-end`. */
  function Location(r: Reference): string {
    NatToString(r.toChapter) + ":" + VerseSpan(r)
  }

  /** `format_reference_text`: the book's translated name, a space, and the
      location. */
  function ReferenceText(current: Option<TranslationMap.Translation>, r: Reference): (text: string)
    ensures EndsWith(text, " " + Location(r))
    ensures current.None? ==> text == r.toBook + " " + Location(r)
  {
    var name := TranslatedBookName(current, r.toBook);
    EndsWithAppend(name, " " + Location(r));
    name + (" " + Location(r))
  }

  /** The location shown for a reference reads back as its chapter and verse
      range; a range whose end lies before its start is shown as stored and
      does not read back. */
  lemma LocationParses(r: Reference)
    requires r.toChapter < U32_LIMIT && r.toVerseStart < U32_LIMIT
    requires r.toVerseEnd.Some? ==> r.toVerseEnd.value < U32_LIMIT
    ensures Split(Location(r), ':') == [NatToString(r.toChapter), VerseSpan(r)]
    ensures ParseU32(NatToString(r.toChapter)) == Some(r.toChapter)
    ensures FromString(VerseSpan(r)) == (match r.toVerseEnd
      case None => Some(VerseRange(r.toVerseStart, r.toVerseStart))
      case Some(e) => if r.toVerseStart <= e then Some(VerseRange(r.toVerseStart, e)) else None)
  {
    var c := NatToString(r.toChapter);
    NumberSeparators(r.toChapter);
    ParseNatToString(r.toChapter);
    VerseSpanParses(r);
    assert Location(r) == c + [':'] + VerseSpan(r);
    SplitConcat(c, ':', VerseSpan(r));
    SplitNoSep(VerseSpan(r), ':');
  }

  lemma VerseSpanParses(r: Reference)
    requires r.toVerseStart < U32_LIMIT
    requires r.toVerseEnd.Some? ==> r.toVerseEnd.value < U32_LIMIT
    ensures ':' !in VerseSpan(r)
    ensures FromString(VerseSpan(r)) == (match r.toVerseEnd
      case None => Some(VerseRange(r.toVerseStart, r.toVerseStart))
      case Some(e) => if r.toVerseStart <= e then Some(VerseRange(r.toVerseStart, e)) else None)
  {
    ParseTrimmedNumber(r.toVerseStart);
    match r.toVerseEnd {
      case Some(e) =>
        PairSeparators(r.toVerseStart, e);
        FromStringPair(r.toVerseStart, e);
      case None =>
        NumberSeparators(r.toVerseStart);
    }
  }

  // ---------------------------------------------------------------------------
  // Vote labels

  /** The vote markers as the source spells them: the UTF-8 bytes of the
      thumbs-up and thumbs-down emoji read as Mac Roman characters. */
  const UpMarkerAsWritten: string := "\U{F8FF}\U{FC}\U{EB}\U{E7}"
  const DownMarkerAsWritten: string := "\U{F8FF}\U{FC}\U{EB}\U{E9}"

  /** The thumbs-up and thumbs-down emoji those bytes encode. */
  const UpMarker: string := "\U{1F44D}"
  const DownMarker: string := "\U{1F44E}"

  /** `i32::abs` without overflow checks: the magnitude, except that the
      lowest value is its own absolute value. */
  function AbsI32(v: int): (r: int)
    requires IsI32(v)
    ensures IsI32(r)
    ensures v == I32_MIN ==> r == I32_MIN
    ensures v != I32_MIN ==> r >= 0 && (r == v || r == -v)
  {
    if v == I32_MIN then I32_MIN else if v < 0 then -v else v
  }

  /** Rust's decimal rendering of a signed number. */
  function IntText(v: int): string {
    if v < 0 then "-" + NatToString(-v) else NatToString(v)
  }

  /** `format_votes_with_emoji` for a pair of markers: a positive count after
      the up marker, a negative count's magnitude after the down marker, and
      zero after the up marker. */
  function VotesLabel(up: string, down: string, votes: int): string
    requires IsI32(votes)
  {
    if votes > 0 then up + " " + IntText(votes)
    else if votes < 0 then down + " " + IntText(AbsI32(votes))
    else up + " 0"
  }

  /** `format_votes_with_emoji` as written. */
  function FormatVotesAsWritten(votes: int): string
    requires IsI32(votes)
  {
    VotesLabel(UpMarkerAsWritten, DownMarkerAsWritten, votes)
  }

  /** `format_votes_with_emoji` with the emoji the markers were meant to be. */
  function FormatVotes(votes: int): string
    requires IsI32(votes)
  {
    VotesLabel(UpMarker, DownMarker, votes)
  }

  /** Reading a label back: the marker tells the sign, the number the
      magnitude. */
  function ParseVotes(text: string): Option<int> {
    if |text| < 2 || text[1] != ' ' then None
    else match ParseU32(text[2..])
      case None => None
      case Some(n) =>
        if [text[0]] == UpMarker then Some(n)
        else if [text[0]] == DownMarker then Some(0 - n)
        else None
  }

  /** A label made of a marker, a space and a number reads back as the
      number, negated after the down marker. */
  lemma ParseMarkedNumber(marker: string, n: nat)
    requires marker == UpMarker || marker == DownMarker
    requires n < U32_LIMIT
    ensures ParseVotes(marker + " " + NatToString(n)) == Some(if marker == UpMarker then n else 0 - n)
  {
    var text := marker + " " + NatToString(n);
    assert text[1] == ' ' && [text[0]] == marker;
    assert text[2..] == NatToString(n);
    ParseNatToString(n);
  }

  /** The label of every count but the lowest reads back as that count. */
  lemma VotesRoundTrip(votes: int)
    requires IsI32(votes) && votes != I32_MIN
    ensures ParseVotes(FormatVotes(votes)) == Some(votes)
  {
    if votes > 0 {
      assert FormatVotes(votes) == UpMarker + " " + NatToString(votes);
      ParseMarkedNumber(UpMarker, votes);
    } else if votes < 0 {
      assert FormatVotes(votes) == DownMarker + " " + NatToString(-votes);
      ParseMarkedNumber(DownMarker, -votes);
    } else {
      assert FormatVotes(votes) == UpMarker + " " + NatToString(0);
      ParseMarkedNumber(UpMarker, 0);
    }
  }

  /** The lowest count's absolute value wraps to itself, so its label
      carries a minus sign after the down marker and does not read back. */
  lemma LowestVotesLabel()
    ensures FormatVotes(I32_MIN) == DownMarker + " -" + NatToString(0x8000_0000)
    ensures ParseVotes(FormatVotes(I32_MIN)).None?
  {
    var text := DownMarker + " " + ("-" + NatToString(0x8000_0000));
    assert FormatVotes(I32_MIN) == text;
    assert text[2..] == "-" + NatToString(0x8000_0000);
    assert !AllDigits(text[2..]) by {
      assert text[2..][0] == '-';
    }
  }

  /** The labels as written start with four characters that are not the
      emoji: the label for one up-vote shows those four characters. */
  lemma VotesMarkersAsWritten()
    ensures FormatVotesAsWritten(1) == "\U{F8FF}\U{FC}\U{EB}\U{E7} 1"
    ensures FormatVotes(1) == "\U{1F44D} 1"
    ensures FormatVotesAsWritten(0) != FormatVotes(0)
  {
    assert NatToString(1) == "1";
    assert FormatVotesAsWritten(0)[0] != FormatVotes(0)[0];
  }

  // ---------------------------------------------------------------------------
  // Ordering

  /** Highest vote count first. */
  predicate SortedByVotes(s: seq<Reference>) {
    forall i, j :: 0 <= i < j < |s| ==> s[i].votes >= s[j].votes
  }

  /** Insert a reference in front of the first one with no more votes. */
  function InsertByVotes(x: Reference, s: seq<Reference>): (r: seq<Reference>)
    requires SortedByVotes(s)
    ensures SortedByVotes(r)
    ensures multiset(r) == multiset(s) + multiset{x}
    ensures |r| == |s| + 1
    ensures r[0] == x || (|s| > 0 && r[0] == s[0])
  {
    if |s| == 0 || s[0].votes <= x.votes then [x] + s
    else
      assert s == [s[0]] + s[1..];
      var rest := InsertByVotes(x, s[1..]);
      assert rest[0].votes <= s[0].votes;
      [s[0]] + rest
  }

  /** `sort_unstable_by(|a, b| b.votes.cmp(&a.votes))`: the references in
      descending order of votes. The source leaves the order of equal counts
      open; this is one of the orders it may produce. */
  function SortByVotes(s: seq<Reference>): (r: seq<Reference>)
    ensures SortedByVotes(r)
    ensures multiset(r) == multiset(s)
  {
    if |s| == 0 then []
    else
      assert s == [s[0]] + s[1..];
      InsertByVotes(s[0], SortByVotes(s[1..]))
  }

  /** The last verse number the panel loads references for. */
  const LastLoadedVerse: nat := 200

  /** The chapter memo: for verses `from..=200` the sorted references of each
      verse that has some. `lookup` stands for the verse-id construction and
      the reference table, which are not part of this model. */
  function PreloadFrom(lookup: nat -> Option<seq<Reference>>, from: nat): (m: map<nat, seq<Reference>>)
    requires 1 <= from <= LastLoadedVerse + 1
    ensures forall v :: v in m <==> from <= v <= LastLoadedVerse && lookup(v).Some?
    ensures forall v :: v in m ==> SortedByVotes(m[v]) && multiset(m[v]) == multiset(lookup(v).value)
    decreases LastLoadedVerse + 1 - from
  {
    if from > LastLoadedVerse then map[]
    else
      var rest := PreloadFrom(lookup, from + 1);
      match lookup(from)
      case Some(refs) => rest[from := SortByVotes(refs)]
      case None => rest
  }

  function ChapterReferences(lookup: nat -> Option<seq<Reference>>): (m: map<nat, seq<Reference>>)
    ensures forall v :: v in m <==> 1 <= v <= LastLoadedVerse && lookup(v).Some?
    ensures forall v :: v in m ==> SortedByVotes(m[v]) && multiset(m[v]) == multiset(lookup(v).value)
  {
    PreloadFrom(lookup, 1)
  }

  /** The references shown for a verse. */
  function VerseReferences(chapter: map<nat, seq<Reference>>, verse: nat): Option<seq<Reference>> {
    if verse in chapter then Some(chapter[verse]) else None
  }

  /** A verse after verse 200 shows no references, whatever the table holds;
      up to it, a verse shows its references, highest votes first. */
  lemma VerseReferencesOfChapter(lookup: nat -> Option<seq<Reference>>, verse: nat)
    ensures verse > LastLoadedVerse || verse == 0 ==> VerseReferences(ChapterReferences(lookup), verse).None?
    ensures 1 <= verse <= LastLoadedVerse ==>
      (VerseReferences(ChapterReferences(lookup), verse).Some? <==> lookup(verse).Some?)
    ensures VerseReferences(ChapterReferences(lookup), verse).Some? ==>
      var shown := VerseReferences(ChapterReferences(lookup), verse).value;
      SortedByVotes(shown) && multiset(shown) == multiset(lookup(verse).value)
  {
  }

  // ---------------------------------------------------------------------------
  // Keyboard selection

  /** Ctrl+J: the next reference, wrapping to the first. */
  function NextIndex(current: nat, count: nat): (r: nat)
    requires current < count
    ensures r < count && r == (current + 1) % count
  {
    if current + 1 < count then current + 1 else 0
  }

  /** Ctrl+K: the previous reference, wrapping to the last. */
  function PreviousIndex(current: nat, count: nat): (r: nat)
    requires current < count
    ensures r < count && r == (current + count - 1) % count
  {
    if current > 0 then current - 1 else count - 1
  }

  lemma PreviousOfNext(current: nat, count: nat)
    requires current < count
    ensures PreviousIndex(NextIndex(current, count), count) == current
    ensures NextIndex(PreviousIndex(current, count), count) == current
  {
  }

  /** Pressing Ctrl+J `n` times. */
  function NextTimes(current: nat, count: nat, n: nat): (r: nat)
    requires current < count
    ensures r < count
  {
    if n == 0 then current else NextIndex(NextTimes(current, count, n - 1), count)
  }

  /** Pressing Ctrl+J `n` times moves `n` places round the list, so `count`
      presses come back to where they started. */
  lemma {:induction false} NextTimesIsModular(current: nat, count: nat, n: nat)
    requires current < count
    ensures NextTimes(current, count, n) == (current + n) % count
  {
    if n > 0 {
      NextTimesIsModular(current, count, n - 1);
      var k := (current + n - 1) % count;
      assert NextIndex(k, count) == (k + 1) % count;
      ModSuccessor(current + n - 1, count);
    }
  }

  datatype KeyPress = KeyPress(key: string, ctrl: bool, shift: bool)

  /** What a key press does to the panel: nothing, put the selection back on
      the first reference, select a reference, or open a link. Opening a link
      on a mobile screen also closes the right sidebar. */
  datatype KeyOutcome = Ignored | ResetSelection | Select(index: nat) | Open(url: string, closeSidebar: bool)

  /** The three presses the handler considers: Ctrl+J, Ctrl+K, and Enter
      without Ctrl. */
  predicate HandledKey(k: KeyPress) {
    (k.key == "j" && k.ctrl) || (k.key == "k" && k.ctrl) || (k.key == "Enter" && !k.ctrl)
  }

  /** The panel's key handler for the references of the current verse. It
      does nothing while the command palette is open, and otherwise considers
      only the handled presses, and none while a previous press is being
      handled; an out-of-range selection is reset to the first reference;
      Shift with Ctrl+J or Ctrl+K, or with Enter, does nothing. Whether the
      screen is a mobile one is a parameter. */
  function HandleReferenceKey(k: KeyPress, paletteOpen: bool, navigating: bool, mobile: bool,
                              current: nat, refs: seq<Reference>): (r: KeyOutcome)
    ensures paletteOpen ==> r.Ignored?
    ensures !r.Ignored? ==> !paletteOpen && !navigating && |refs| > 0 && HandledKey(k)
    ensures r.Select? ==> r.index < |refs|
    ensures r.Select? <==> !paletteOpen && !navigating && current < |refs| && k.ctrl && !k.shift && (k.key == "j" || k.key == "k")
    ensures r.Open? <==> !paletteOpen && !navigating && current < |refs| && k.key == "Enter" && !k.ctrl && !k.shift
    ensures r.Open? ==> r.url == ReferenceToUrl(refs[current]) && r.closeSidebar == mobile
    ensures r.ResetSelection? <==> !paletteOpen && |refs| > 0 && !navigating && current >= |refs| && HandledKey(k)
  {
    if paletteOpen then Ignored
    else if |refs| == 0 then Ignored
    else if !HandledKey(k) then Ignored
    else if navigating then Ignored
    else if current >= |refs| then ResetSelection
    else if k.key == "j" && k.ctrl && !k.shift then Select(NextIndex(current, |refs|))
    else if k.key == "k" && k.ctrl && !k.shift then Select(PreviousIndex(current, |refs|))
    else if k.key == "Enter" && !k.ctrl && !k.shift then Open(ReferenceToUrl(refs[current]), mobile)
    else Ignored
  }

  /** With the command palette closed, Ctrl+J then Ctrl+K from a valid
      selection comes back to it, and Enter opens the link of the selected
      reference, closing the sidebar exactly on a mobile screen. */
  lemma KeySelectionRoundTrip(current: nat, refs: seq<Reference>, mobile: bool)
    requires current < |refs|
    ensures HandleReferenceKey(KeyPress("j", true, false), false, false, mobile, current, refs) == Select(NextIndex(current, |refs|))
    ensures HandleReferenceKey(KeyPress("k", true, false), false, false, mobile, NextIndex(current, |refs|), refs) == Select(current)
    ensures HandleReferenceKey(KeyPress("Enter", false, false), false, false, mobile, current, refs) == Open(ReferenceToUrl(refs[current]), mobile)
  {
    PreviousOfNext(current, |refs|);
  }

  /** While the command palette is open the panel leaves every press to it,
      whatever the selection, the references or the screen; with it closed, a
      handled press without Shift on a valid selection always has an effect. */
  lemma PaletteTakesKeys(k: KeyPress, navigating: bool, mobile: bool, current: nat, refs: seq<Reference>)
    ensures HandleReferenceKey(k, true, navigating, mobile, current, refs) == Ignored
    ensures current < |refs| && HandledKey(k) && !navigating ==>
      HandleReferenceKey(k, false, navigating, mobile, current, refs) != Ignored || k.shift
  {
  }
}
