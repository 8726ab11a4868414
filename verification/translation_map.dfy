/** Book-name translation tables (site/src/translation_map/translation.rs):
    snake-case lookup keys, with digit and roman spellings of the numbered
    books, each naming one book of a language's table, and chapter
    references such as `matthew 7` translated with the book's display name. */
module TranslationMap {
  import opened Wrappers
  import opened Strings

  /** The 66 books a translation table names, in its field order. */
  datatype Book =
      Genesis
    | Exodus
    | Leviticus
    | Numbers
    | Deuteronomy
    | Joshua
    | Judges
    | Ruth
    | FirstSamuel
    | SecondSamuel
    | FirstKings
    | SecondKings
    | FirstChronicles
    | SecondChronicles
    | Ezra
    | Nehemiah
    | Esther
    | Job
    | Psalms
    | Proverbs
    | Ecclesiastes
    | SongOfSolomon
    | Isaiah
    | Jeremiah
    | Lamentations
    | Ezekiel
    | Daniel
    | Hosea
    | Joel
    | Amos
    | Obadiah
    | Jonah
    | Micah
    | Nahum
    | Habakkuk
    | Zephaniah
    | Haggai
    | Zechariah
    | Malachi
    | Matthew
    | Mark
    | Luke
    | John
    | Acts
    | Romans
    | FirstCorinthians
    | SecondCorinthians
    | Galatians
    | Ephesians
    | Philippians
    | Colossians
    | FirstThessalonians
    | SecondThessalonians
    | FirstTimothy
    | SecondTimothy
    | Titus
    | Philemon
    | Hebrews
    | James
    | FirstPeter
    | SecondPeter
    | FirstJohn
    | SecondJohn
    | ThirdJohn
    | Jude
    | Revelation

  /** A language's table: the display name of every book. The tables
      themselves are data and stay a parameter. */
  type Translation = Book -> string

  /** The keys `Translation::get_book` accepts and the book each names. A
      numbered book has five keys: `first_samuel`, `1_samuel`, `1samuel`,
      `i_samuel` and `isamuel`. The source matches the whole key against
      one flat list; here the keys are grouped by their first character,
      and those starting with a digit or `i` by their second, each group
      keeping the source's order. The keys are distinct literals, so the
      grouping does not change which book a key names. */
  function BookOf(key: string): Option<Book> {
    if |key| <= 0 then None
    else match key[0]
    case 'g' =>
      (match key
      case "genesis" => Some(Genesis)
      case "galatians" => Some(Galatians)
      case _ => None)
    case 'e' =>
      (match key
      case "exodus" => Some(Exodus)
      case "ezra" => Some(Ezra)
      case "esther" => Some(Esther)
      case "ecclesiastes" => Some(Ecclesiastes)
      case "ezekiel" => Some(Ezekiel)
      case "ephesians" => Some(Ephesians)
      case _ => None)
    case 'l' =>
      (match key
      case "leviticus" => Some(Leviticus)
      case "lamentations" => Some(Lamentations)
      case "luke" => Some(Luke)
      case _ => None)
    case 'n' =>
      (match key
      case "numbers" => Some(Numbers)
      case "nehemiah" => Some(Nehemiah)
      case "nahum" => Some(Nahum)
      case _ => None)
    case 'd' =>
      (match key
      case "deuteronomy" => Some(Deuteronomy)
      case "daniel" => Some(Daniel)
      case _ => None)
    case 'j' =>
      (match key
      case "joshua" => Some(Joshua)
      case "judges" => Some(Judges)
      case "job" => Some(Job)
      case "jeremiah" => Some(Jeremiah)
      case "joel" => Some(Joel)
      case "jonah" => Some(Jonah)
      case "john" => Some(John)
      case "james" => Some(James)
      case "jude" => Some(Jude)
      case _ => None)
    case 'r' =>
      (match key
      case "ruth" => Some(Ruth)
      case "romans" => Some(Romans)
      case "revelation" => Some(Revelation)
      case _ => None)
    case 'f' =>
      (match key
      case "first_samuel" => Some(FirstSamuel)
      case "first_kings" => Some(FirstKings)
      case "first_chronicles" => Some(FirstChronicles)
      case "first_corinthians" => Some(FirstCorinthians)
      case "first_thessalonians" => Some(FirstThessalonians)
      case "first_timothy" => Some(FirstTimothy)
      case "first_peter" => Some(FirstPeter)
      case "first_john" => Some(FirstJohn)
      case _ => None)
    case '1' =>
      (if |key| <= 1 then None
      else match key[1]
      case '_' =>
        (match key
        case "1_samuel" => Some(FirstSamuel)
        case "1_kings" => Some(FirstKings)
        case "1_chronicles" => Some(FirstChronicles)
        case "1_corinthians" => Some(FirstCorinthians)
        case "1_thessalonians" => Some(FirstThessalonians)
        case "1_timothy" => Some(FirstTimothy)
        case "1_peter" => Some(FirstPeter)
        case "1_john" => Some(FirstJohn)
        case _ => None)
      case 's' =>
        (match key
        case "1samuel" => Some(FirstSamuel)
        case _ => None)
      case 'k' =>
        (match key
        case "1kings" => Some(FirstKings)
        case _ => None)
      case 'c' =>
        (match key
        case "1chronicles" => Some(FirstChronicles)
        case "1corinthians" => Some(FirstCorinthians)
        case _ => None)
      case 't' =>
        (match key
        case "1thessalonians" => Some(FirstThessalonians)
        case "1timothy" => Some(FirstTimothy)
        case _ => None)
      case 'p' =>
        (match key
        case "1peter" => Some(FirstPeter)
        case _ => None)
      case 'j' =>
        (match key
        case "1john" => Some(FirstJohn)
        case _ => None)
      case _ => None)
    case 'i' =>
      (if |key| <= 1 then None
      else match key[1]
      case '_' =>
        (match key
        case "i_samuel" => Some(FirstSamuel)
        case "i_kings" => Some(FirstKings)
        case "i_chronicles" => Some(FirstChronicles)
        case "i_corinthians" => Some(FirstCorinthians)
        case "i_thessalonians" => Some(FirstThessalonians)
        case "i_timothy" => Some(FirstTimothy)
        case "i_peter" => Some(FirstPeter)
        case "i_john" => Some(FirstJohn)
        case _ => None)
      case 's' =>
        (match key
        case "isamuel" => Some(FirstSamuel)
        case "isaiah" => Some(Isaiah)
        case _ => None)
      case 'i' =>
        (if |key| <= 2 then None
        else match key[2]
        case '_' =>
          (match key
          case "ii_samuel" => Some(SecondSamuel)
          case "ii_kings" => Some(SecondKings)
          case "ii_chronicles" => Some(SecondChronicles)
          case "ii_corinthians" => Some(SecondCorinthians)
          case "ii_thessalonians" => Some(SecondThessalonians)
          case "ii_timothy" => Some(SecondTimothy)
          case "ii_peter" => Some(SecondPeter)
          case "ii_john" => Some(SecondJohn)
          case _ => None)
        case 's' =>
          (match key
          case "iisamuel" => Some(SecondSamuel)
          case _ => None)
        case 'k' =>
          (match key
          case "iikings" => Some(SecondKings)
          case _ => None)
        case 'c' =>
          (match key
          case "iichronicles" => Some(SecondChronicles)
          case "iicorinthians" => Some(SecondCorinthians)
          case _ => None)
        case 't' =>
          (match key
          case "iithessalonians" => Some(SecondThessalonians)
          case "iitimothy" => Some(SecondTimothy)
          case _ => None)
        case 'p' =>
          (match key
          case "iipeter" => Some(SecondPeter)
          case _ => None)
        case 'j' =>
          (match key
          case "iijohn" => Some(SecondJohn)
          case _ => None)
        case 'i' =>
          (match key
          case "iii_john" => Some(ThirdJohn)
          case "iiijohn" => Some(ThirdJohn)
          case _ => None)
        case _ => None)
      case 'k' =>
        (match key
        case "ikings" => Some(FirstKings)
        case _ => None)
      case 'c' =>
        (match key
        case "ichronicles" => Some(FirstChronicles)
        case "icorinthians" => Some(FirstCorinthians)
        case _ => None)
      case 't' =>
        (match key
        case "ithessalonians" => Some(FirstThessalonians)
        case "itimothy" => Some(FirstTimothy)
        case _ => None)
      case 'p' =>
        (match key
        case "ipeter" => Some(FirstPeter)
        case _ => None)
      case 'j' =>
        (match key
        case "ijohn" => Some(FirstJohn)
        case _ => None)
      case _ => None)
    case 's' =>
      (match key
      case "second_samuel" => Some(SecondSamuel)
      case "second_kings" => Some(SecondKings)
      case "second_chronicles" => Some(SecondChronicles)
      case "song_of_solomon" => Some(SongOfSolomon)
      case "second_corinthians" => Some(SecondCorinthians)
      case "second_thessalonians" => Some(SecondThessalonians)
      case "second_timothy" => Some(SecondTimothy)
      case "second_peter" => Some(SecondPeter)
      case "second_john" => Some(SecondJohn)
      case _ => None)
    case '2' =>
      (if |key| <= 1 then None
      else match key[1]
      case '_' =>
        (match key
        case "2_samuel" => Some(SecondSamuel)
        case "2_kings" => Some(SecondKings)
        case "2_chronicles" => Some(SecondChronicles)
        case "2_corinthians" => Some(SecondCorinthians)
        case "2_thessalonians" => Some(SecondThessalonians)
        case "2_timothy" => Some(SecondTimothy)
        case "2_peter" => Some(SecondPeter)
        case "2_john" => Some(SecondJohn)
        case _ => None)
      case 's' =>
        (match key
        case "2samuel" => Some(SecondSamuel)
        case _ => None)
      case 'k' =>
        (match key
        case "2kings" => Some(SecondKings)
        case _ => None)
      case 'c' =>
        (match key
        case "2chronicles" => Some(SecondChronicles)
        case "2corinthians" => Some(SecondCorinthians)
        case _ => None)
      case 't' =>
        (match key
        case "2thessalonians" => Some(SecondThessalonians)
        case "2timothy" => Some(SecondTimothy)
        case _ => None)
      case 'p' =>
        (match key
        case "2peter" => Some(SecondPeter)
        case _ => None)
      case 'j' =>
        (match key
        case "2john" => Some(SecondJohn)
        case _ => None)
      case _ => None)
    case 'p' =>
      (match key
      case "psalms" => Some(Psalms)
      case "proverbs" => Some(Proverbs)
      case "philippians" => Some(Philippians)
      case "philemon" => Some(Philemon)
      case _ => None)
    case 'h' =>
      (match key
      case "hosea" => Some(Hosea)
      case "habakkuk" => Some(Habakkuk)
      case "haggai" => Some(Haggai)
      case "hebrews" => Some(Hebrews)
      case _ => None)
    case 'a' =>
      (match key
      case "amos" => Some(Amos)
      case "acts" => Some(Acts)
      case _ => None)
    case 'o' =>
      (match key
      case "obadiah" => Some(Obadiah)
      case _ => None)
    case 'm' =>
      (match key
      case "micah" => Some(Micah)
      case "malachi" => Some(Malachi)
      case "matthew" => Some(Matthew)
      case "mark" => Some(Mark)
      case _ => None)
    case 'z' =>
      (match key
      case "zephaniah" => Some(Zephaniah)
      case "zechariah" => Some(Zechariah)
      case _ => None)
    case 'c' =>
      (match key
      case "colossians" => Some(Colossians)
      case _ => None)
    case 't' =>
      (match key
      case "titus" => Some(Titus)
      case "third_john" => Some(ThirdJohn)
      case _ => None)
    case '3' =>
      (match key
      case "3_john" => Some(ThirdJohn)
      case "3john" => Some(ThirdJohn)
      case _ => None)
    case _ => None
  }

  /** `Translation::get_book`: the display name of the book a key names. */
  function GetBook(t: Translation, key: string): Option<string> {
    match BookOf(key)
    case Some(b) => Some(t(b))
    case None => None
  }


  // ---------------------------------------------------------------------------
  // Book names and chapter references

  /** `Translation::get`. The input is lower-cased first. When it has at
      least two whitespace-separated words, the last of them a u32, and the
      words before it, joined by `_`, form a key, the result is that book's
      display name followed by the chapter word; otherwise the whole input,
      its spaces replaced by `_`, is looked up as a book key. */
  function Get(t: Translation, s: string): Option<string> {
    var lower := ToLower(s);
    match ChapterReference(t, SplitWhitespace(lower))
    case Some(name) => Some(name)
    case None => GetBook(t, ReplaceChar(lower, ' ', '_'))
  }

  /** The chapter reading of the input's words, if it has one. */
  function ChapterReference(t: Translation, words: seq<string>): Option<string> {
    if |words| >= 2 && ParseU32(words[|words| - 1]).Some? then
      match GetBook(t, ReplaceChar(Join(words[..|words| - 1], " "), ' ', '_'))
      case Some(book) => Some(book + " " + words[|words| - 1])
      case None => None
    else None
  }

  /** Lookup ignores case: lower-casing the input first changes nothing. */
  lemma GetIgnoresCase(t: Translation, s: string)
    ensures Get(t, s) == Get(t, ToLower(s))
  {
    ToLowerIdempotent(s);
  }

  /** Words without spaces joined by spaces, then with the spaces replaced
      by `_`, are the words joined by `_`. */
  lemma {:induction false} JoinUnderscores(words: seq<string>)
    requires forall i :: 0 <= i < |words| ==> IsWord(words[i])
    ensures ReplaceChar(Join(words, " "), ' ', '_') == Join(words, "_")
    decreases |words|
  {
    if |words| == 1 {
      assert IsWhitespace(' ');
      assert ReplaceChar(words[0], ' ', '_') == words[0];
    } else if |words| > 1 {
      JoinUnderscores(words[1..]);
      var rest := Join(words[1..], " ");
      assert Join(words, " ") == words[0] + " " + rest;
      assert IsWhitespace(' ');
      ReplaceCharConcat(words[0], " " + rest);
      ReplaceCharConcat(" ", rest);
      assert ReplaceChar(words[0], ' ', '_') == words[0];
    }
  }

  lemma ReplaceCharConcat(a: string, b: string)
    ensures ReplaceChar(a + b, ' ', '_') == ReplaceChar(a, ' ', '_') + ReplaceChar(b, ' ', '_')
  {
  }

  /** A chapter reference: words naming a book (joined by `_`) followed by a
      chapter number translate to the book's display name and the number. */
  lemma TranslatesChapter(t: Translation, s: string, words: seq<string>, n: nat, b: Book)
    requires SplitWhitespace(ToLower(s)) == words + [NatToString(n)]
    requires words != [] && n < U32_LIMIT
    requires BookOf(Join(words, "_")) == Some(b)
    ensures Get(t, s) == Some(t(b) + " " + NatToString(n))
  {
    var all := words + [NatToString(n)];
    assert all[..|all| - 1] == words;
    ParseNatToString(n);
    forall i | 0 <= i < |words|
      ensures IsWord(words[i])
    {
      assert words[i] == all[i];
    }
    JoinUnderscores(words);
  }

  /** Input without whitespace is one word and is looked up, lower-cased,
      as a book key. */
  lemma SingleWord(t: Translation, s: string)
    requires NoWhitespace(s)
    ensures Get(t, s) == GetBook(t, ToLower(s))
  {
    var lower := ToLower(s);
    assert NoWhitespace(lower) by {
      forall i | 0 <= i < |lower|
        ensures !IsWhitespace(lower[i])
      {
        assert !IsWhitespace(s[i]);
      }
    }
    if lower != [] {
      SplitWhitespaceOfWord(lower);
    }
    assert IsWhitespace(' ');
    assert ReplaceChar(lower, ' ', '_') == lower;
  }

  /** When the input is not a chapter reference of a known book (fewer than
      two words, a last word that is not a u32, or words before it naming no
      book), the whole lower-cased input with its spaces replaced by `_` is
      looked up as a book key. */
  lemma Fallback(t: Translation, s: string)
    requires var words := SplitWhitespace(ToLower(s));
      |words| < 2 || ParseU32(words[|words| - 1]).None? || BookOf(Join(words[..|words| - 1], "_")).None?
    ensures Get(t, s) == GetBook(t, ReplaceChar(ToLower(s), ' ', '_'))
  {
    var words := SplitWhitespace(ToLower(s));
    if |words| >= 2 {
      var front := words[..|words| - 1];
      forall i | 0 <= i < |front|
        ensures IsWord(front[i])
      {
        assert front[i] == words[i];
      }
      JoinUnderscores(front);
    }
  }

  /** Words without a chapter number after them: input that lower-cases to
      the words joined by single spaces is looked up as the words joined by
      `_`. */
  lemma SpacedName(t: Translation, s: string, words: seq<string>)
    requires |words| >= 1 && forall i :: 0 <= i < |words| ==> IsWord(words[i])
    requires ToLower(s) == Join(words, " ")
    requires ParseU32(words[|words| - 1]).None?
    ensures Get(t, s) == GetBook(t, Join(words, "_"))
  {
    SplitWhitespaceJoin(words);
    assert SplitWhitespace(ToLower(s)) == words;
    Fallback(t, s);
    JoinUnderscores(words);
  }

  /** "I Samuel", without a chapter number, is looked up as "i_samuel" and
      names the first book of Samuel. */
  lemma SpacedBookName(t: Translation)
    ensures Get(t, "I Samuel") == Some(t(FirstSamuel))
  {
    ISamuelWords();
    SamuelNotNumber();
    ISamuelLower();
    ISamuelKey();
    FirstSamuelKeys();
    SpacedName(t, "I Samuel", ["i", "samuel"]);
  }

  lemma ISamuelWords()
    ensures IsWord("i") && IsWord("samuel")
  {
  }

  lemma SamuelNotNumber()
    ensures ParseU32("samuel").None?
  {
    assert !IsDigit('l');
  }

  lemma ISamuelLower()
    ensures ToLower("I Samuel") == Join(["i", "samuel"], " ")
  {
    assert ToLower("I Samuel") == "i samuel";
  }

  lemma ISamuelKey()
    ensures Join(["i", "samuel"], "_") == "i_samuel"
  {
  }

  /** A book the table does not know has no translation, with or without a
      chapter number after it. */
  lemma UnknownBook(t: Translation, s: string, words: seq<string>, n: nat)
    requires SplitWhitespace(ToLower(s)) == words + [NatToString(n)]
    requires words != [] && n < U32_LIMIT
    requires BookOf(Join(words, "_")).None?
    requires BookOf(ReplaceChar(ToLower(s), ' ', '_')).None?
    ensures Get(t, s) == None
  {
    var all := words + [NatToString(n)];
    assert all[..|all| - 1] == words;
    forall i | 0 <= i < |words|
      ensures IsWord(words[i])
    {
      assert words[i] == all[i];
    }
    JoinUnderscores(words);
  }

  /** Keys the table does not list: a different case, spaces for
      underscores, a chapter number glued on. */
  lemma UnlistedKeys()
    ensures BookOf("Genesis") == None
    ensures BookOf("song of solomon") == None
    ensures BookOf("nonexistent") == None
    ensures BookOf("nonexistent_5") == None
    ensures BookOf("iv_kings") == None
  {
  }

  /** All five keys of each numbered book name that book. */
  lemma NumberedAliases()
    ensures BookOf("first_samuel") == BookOf("1_samuel") == BookOf("1samuel") == BookOf("i_samuel") == BookOf("isamuel") == Some(FirstSamuel)
    ensures BookOf("second_samuel") == BookOf("2_samuel") == BookOf("2samuel") == BookOf("ii_samuel") == BookOf("iisamuel") == Some(SecondSamuel)
    ensures BookOf("first_kings") == BookOf("1_kings") == BookOf("1kings") == BookOf("i_kings") == BookOf("ikings") == Some(FirstKings)
    ensures BookOf("second_kings") == BookOf("2_kings") == BookOf("2kings") == BookOf("ii_kings") == BookOf("iikings") == Some(SecondKings)
    ensures BookOf("first_chronicles") == BookOf("1_chronicles") == BookOf("1chronicles") == BookOf("i_chronicles") == BookOf("ichronicles") == Some(FirstChronicles)
    ensures BookOf("second_chronicles") == BookOf("2_chronicles") == BookOf("2chronicles") == BookOf("ii_chronicles") == BookOf("iichronicles") == Some(SecondChronicles)
    ensures BookOf("first_corinthians") == BookOf("1_corinthians") == BookOf("1corinthians") == BookOf("i_corinthians") == BookOf("icorinthians") == Some(FirstCorinthians)
    ensures BookOf("second_corinthians") == BookOf("2_corinthians") == BookOf("2corinthians") == BookOf("ii_corinthians") == BookOf("iicorinthians") == Some(SecondCorinthians)
    ensures BookOf("first_thessalonians") == BookOf("1_thessalonians") == BookOf("1thessalonians") == BookOf("i_thessalonians") == BookOf("ithessalonians") == Some(FirstThessalonians)
    ensures BookOf("second_thessalonians") == BookOf("2_thessalonians") == BookOf("2thessalonians") == BookOf("ii_thessalonians") == BookOf("iithessalonians") == Some(SecondThessalonians)
    ensures BookOf("first_timothy") == BookOf("1_timothy") == BookOf("1timothy") == BookOf("i_timothy") == BookOf("itimothy") == Some(FirstTimothy)
    ensures BookOf("second_timothy") == BookOf("2_timothy") == BookOf("2timothy") == BookOf("ii_timothy") == BookOf("iitimothy") == Some(SecondTimothy)
    ensures BookOf("first_peter") == BookOf("1_peter") == BookOf("1peter") == BookOf("i_peter") == BookOf("ipeter") == Some(FirstPeter)
    ensures BookOf("second_peter") == BookOf("2_peter") == BookOf("2peter") == BookOf("ii_peter") == BookOf("iipeter") == Some(SecondPeter)
    ensures BookOf("first_john") == BookOf("1_john") == BookOf("1john") == BookOf("i_john") == BookOf("ijohn") == Some(FirstJohn)
    ensures BookOf("second_john") == BookOf("2_john") == BookOf("2john") == BookOf("ii_john") == BookOf("iijohn") == Some(SecondJohn)
    ensures BookOf("third_john") == BookOf("3_john") == BookOf("3john") == BookOf("iii_john") == BookOf("iiijohn") == Some(ThirdJohn)
  {
    FirstSamuelKeys();
    SecondSamuelKeys();
    FirstKingsKeys();
    SecondKingsKeys();
    FirstChroniclesKeys();
    SecondChroniclesKeys();
    FirstCorinthiansKeys();
    SecondCorinthiansKeys();
    FirstThessaloniansKeys();
    SecondThessaloniansKeys();
    FirstTimothyKeys();
    SecondTimothyKeys();
    FirstPeterKeys();
    SecondPeterKeys();
    FirstJohnKeys();
    SecondJohnKeys();
    ThirdJohnKeys();
  }

  lemma FirstSamuelKeys()
    ensures BookOf("first_samuel") == BookOf("1_samuel") == BookOf("1samuel") == BookOf("i_samuel") == BookOf("isamuel") == Some(FirstSamuel)
  {
  }
  lemma SecondSamuelKeys()
    ensures BookOf("second_samuel") == BookOf("2_samuel") == BookOf("2samuel") == BookOf("ii_samuel") == BookOf("iisamuel") == Some(SecondSamuel)
  {
  }
  lemma FirstKingsKeys()
    ensures BookOf("first_kings") == BookOf("1_kings") == BookOf("1kings") == BookOf("i_kings") == BookOf("ikings") == Some(FirstKings)
  {
  }
  lemma SecondKingsKeys()
    ensures BookOf("second_kings") == BookOf("2_kings") == BookOf("2kings") == BookOf("ii_kings") == BookOf("iikings") == Some(SecondKings)
  {
  }
  lemma FirstChroniclesKeys()
    ensures BookOf("first_chronicles") == BookOf("1_chronicles") == BookOf("1chronicles") == BookOf("i_chronicles") == BookOf("ichronicles") == Some(FirstChronicles)
  {
  }
  lemma SecondChroniclesKeys()
    ensures BookOf("second_chronicles") == BookOf("2_chronicles") == BookOf("2chronicles") == BookOf("ii_chronicles") == BookOf("iichronicles") == Some(SecondChronicles)
  {
  }
  lemma FirstCorinthiansKeys()
    ensures BookOf("first_corinthians") == BookOf("1_corinthians") == BookOf("1corinthians") == BookOf("i_corinthians") == BookOf("icorinthians") == Some(FirstCorinthians)
  {
  }
  lemma SecondCorinthiansKeys()
    ensures BookOf("second_corinthians") == BookOf("2_corinthians") == BookOf("2corinthians") == BookOf("ii_corinthians") == BookOf("iicorinthians") == Some(SecondCorinthians)
  {
  }
  lemma FirstThessaloniansKeys()
    ensures BookOf("first_thessalonians") == BookOf("1_thessalonians") == BookOf("1thessalonians") == BookOf("i_thessalonians") == BookOf("ithessalonians") == Some(FirstThessalonians)
  {
  }
  lemma SecondThessaloniansKeys()
    ensures BookOf("second_thessalonians") == BookOf("2_thessalonians") == BookOf("2thessalonians") == BookOf("ii_thessalonians") == BookOf("iithessalonians") == Some(SecondThessalonians)
  {
  }
  lemma FirstTimothyKeys()
    ensures BookOf("first_timothy") == BookOf("1_timothy") == BookOf("1timothy") == BookOf("i_timothy") == BookOf("itimothy") == Some(FirstTimothy)
  {
  }
  lemma SecondTimothyKeys()
    ensures BookOf("second_timothy") == BookOf("2_timothy") == BookOf("2timothy") == BookOf("ii_timothy") == BookOf("iitimothy") == Some(SecondTimothy)
  {
  }
  lemma FirstPeterKeys()
    ensures BookOf("first_peter") == BookOf("1_peter") == BookOf("1peter") == BookOf("i_peter") == BookOf("ipeter") == Some(FirstPeter)
  {
  }
  lemma SecondPeterKeys()
    ensures BookOf("second_peter") == BookOf("2_peter") == BookOf("2peter") == BookOf("ii_peter") == BookOf("iipeter") == Some(SecondPeter)
  {
  }
  lemma FirstJohnKeys()
    ensures BookOf("first_john") == BookOf("1_john") == BookOf("1john") == BookOf("i_john") == BookOf("ijohn") == Some(FirstJohn)
  {
  }
  lemma SecondJohnKeys()
    ensures BookOf("second_john") == BookOf("2_john") == BookOf("2john") == BookOf("ii_john") == BookOf("iijohn") == Some(SecondJohn)
  {
  }
  lemma ThirdJohnKeys()
    ensures BookOf("third_john") == BookOf("3_john") == BookOf("3john") == BookOf("iii_john") == BookOf("iiijohn") == Some(ThirdJohn)
  {
  }
}
