/** The data types of the KJV verifier library (bible-verify/src/types.rs):
    a parsed Bible, the 66 books of the King James canon with their KJV
    titles, and `is_valid`, which checks the book list against that canon and
    then looks for chapters and verses of implausible length. */
module KjvTypes {
  import opened Wrappers
  import opened Strings

  datatype Verse = Verse(verse: nat, chapter: nat, name: string, text: string)

  datatype Chapter = Chapter(chapter: nat, name: string, verses: seq<Verse>)

  datatype Book = Book(name: string, chapters: seq<Chapter>)

  datatype Bible = Bible(books: seq<Book>)

  /** The library's error enum. `ChapterAmount` and `VerseAmount` are
      declared but never produced. */
  datatype ValidationError =
    | BookAmount(amount: nat)
    | ChapterAmount(amount: nat)
    | VerseAmount(amount: nat)
    | SuspiciousVerseLength(suspiciousVerse: Verse)
    | SuspiciousChapterLength(suspiciousChapter: Chapter)
    | InvalidBookName(invalidName: string)

  /** `BookName`, as its discriminant: the variants in declaration order are
      0 (Genesis) to 65 (Revelation of John), and the derived `Ord` compares
      them in that order. */
  type KjvBook = b: int | 0 <= b < 66

  /** `to_kjv_name`: the title as printed in the KJV. */
  function ToKjvName(b: KjvBook): string {
    match b
    case 0 => "Genesis"
    case 1 => "Exodus"
    case 2 => "Leviticus"
    case 3 => "Numbers"
    case 4 => "Deuteronomy"
    case 5 => "Joshua"
    case 6 => "Judges"
    case 7 => "Ruth"
    case 8 => "I Samuel"
    case 9 => "II Samuel"
    case 10 => "I Kings"
    case 11 => "II Kings"
    case 12 => "I Chronicles"
    case 13 => "II Chronicles"
    case 14 => "Ezra"
    case 15 => "Nehemiah"
    case 16 => "Esther"
    case 17 => "Job"
    case 18 => "Psalms"
    case 19 => "Proverbs"
    case 20 => "Ecclesiastes"
    case 21 => "Song of Solomon"
    case 22 => "Isaiah"
    case 23 => "Jeremiah"
    case 24 => "Lamentations"
    case 25 => "Ezekiel"
    case 26 => "Daniel"
    case 27 => "Hosea"
    case 28 => "Joel"
    case 29 => "Amos"
    case 30 => "Obadiah"
    case 31 => "Jonah"
    case 32 => "Micah"
    case 33 => "Nahum"
    case 34 => "Habakkuk"
    case 35 => "Zephaniah"
    case 36 => "Haggai"
    case 37 => "Zechariah"
    case 38 => "Malachi"
    case 39 => "Matthew"
    case 40 => "Mark"
    case 41 => "Luke"
    case 42 => "John"
    case 43 => "Acts"
    case 44 => "Romans"
    case 45 => "I Corinthians"
    case 46 => "II Corinthians"
    case 47 => "Galatians"
    case 48 => "Ephesians"
    case 49 => "Philippians"
    case 50 => "Colossians"
    case 51 => "I Thessalonians"
    case 52 => "II Thessalonians"
    case 53 => "I Timothy"
    case 54 => "II Timothy"
    case 55 => "Titus"
    case 56 => "Philemon"
    case 57 => "Hebrews"
    case 58 => "James"
    case 59 => "I Peter"
    case 60 => "II Peter"
    case 61 => "I John"
    case 62 => "II John"
    case 63 => "III John"
    case 64 => "Jude"
    case _ => "Revelation of John"
  }

  /** `from_kjv_name`: exact, case-sensitive match of a KJV title. The 66
      titles are distinct literals, so grouping the arms by first character
      does not change which name maps to which book. */
  function FromKjvName(name: string): Option<KjvBook> {
    if |name| == 0 then None
    else match name[0]
    case 'G' =>
      (match name
      case "Genesis" => Some(0)
      case "Galatians" => Some(47)
      case _ => None)
    case 'E' =>
      (match name
      case "Exodus" => Some(1)
      case "Ezra" => Some(14)
      case "Esther" => Some(16)
      case "Ecclesiastes" => Some(20)
      case "Ezekiel" => Some(25)
      case "Ephesians" => Some(48)
      case _ => None)
    case 'L' =>
      (match name
      case "Leviticus" => Some(2)
      case "Lamentations" => Some(24)
      case "Luke" => Some(41)
      case _ => None)
    case 'N' =>
      (match name
      case "Numbers" => Some(3)
      case "Nehemiah" => Some(15)
      case "Nahum" => Some(33)
      case _ => None)
    case 'D' =>
      (match name
      case "Deuteronomy" => Some(4)
      case "Daniel" => Some(26)
      case _ => None)
    case 'J' =>
      (match name
      case "Joshua" => Some(5)
      case "Judges" => Some(6)
      case "Job" => Some(17)
      case "Jeremiah" => Some(23)
      case "Joel" => Some(28)
      case "Jonah" => Some(31)
      case "John" => Some(42)
      case "James" => Some(58)
      case "Jude" => Some(64)
      case _ => None)
    case 'R' =>
      (match name
      case "Ruth" => Some(7)
      case "Romans" => Some(44)
      case "Revelation of John" => Some(65)
      case _ => None)
    case 'I' =>
      (match name
      case "I Samuel" => Some(8)
      case "II Samuel" => Some(9)
      case "I Kings" => Some(10)
      case "II Kings" => Some(11)
      case "I Chronicles" => Some(12)
      case "II Chronicles" => Some(13)
      case "Isaiah" => Some(22)
      case "I Corinthians" => Some(45)
      case "II Corinthians" => Some(46)
      case "I Thessalonians" => Some(51)
      case "II Thessalonians" => Some(52)
      case "I Timothy" => Some(53)
      case "II Timothy" => Some(54)
      case "I Peter" => Some(59)
      case "II Peter" => Some(60)
      case "I John" => Some(61)
      case "II John" => Some(62)
      case "III John" => Some(63)
      case _ => None)
    case 'P' =>
      (match name
      case "Psalms" => Some(18)
      case "Proverbs" => Some(19)
      case "Philippians" => Some(49)
      case "Philemon" => Some(56)
      case _ => None)
    case 'S' =>
      (match name
      case "Song of Solomon" => Some(21)
      case _ => None)
    case 'H' =>
      (match name
      case "Hosea" => Some(27)
      case "Habakkuk" => Some(34)
      case "Haggai" => Some(36)
      case "Hebrews" => Some(57)
      case _ => None)
    case 'A' =>
      (match name
      case "Amos" => Some(29)
      case "Acts" => Some(43)
      case _ => None)
    case 'O' =>
      (match name
      case "Obadiah" => Some(30)
      case _ => None)
    case 'M' =>
      (match name
      case "Micah" => Some(32)
      case "Malachi" => Some(38)
      case "Matthew" => Some(39)
      case "Mark" => Some(40)
      case _ => None)
    case 'Z' =>
      (match name
      case "Zephaniah" => Some(35)
      case "Zechariah" => Some(37)
      case _ => None)
    case 'C' =>
      (match name
      case "Colossians" => Some(50)
      case _ => None)
    case 'T' =>
      (match name
      case "Titus" => Some(55)
      case _ => None)
    case _ => None
  }

  /** `all_books_in_order`: every variant once, in declaration order. */
  function AllBooksInOrder(): seq<KjvBook> {
    seq(66, i requires 0 <= i < 66 => i)
  }

  lemma AllBooksInOrderListsEach()
    ensures |AllBooksInOrder()| == 66
    ensures forall i :: 0 <= i < 66 ==> AllBooksInOrder()[i] == i
    ensures forall i, j :: 0 <= i < j < 66 ==> ToKjvName(AllBooksInOrder()[i]) != ToKjvName(AllBooksInOrder()[j])
  {
    forall i, j | 0 <= i < j < 66 ensures ToKjvName(AllBooksInOrder()[i]) != ToKjvName(AllBooksInOrder()[j]) {
      KjvRoundTrip(i);
      KjvRoundTrip(j);
    }
  }

  /** Reading a book's own title gives the book back. The proof is split by
      position so that each part compares a title with few arms. */
  lemma KjvRoundTrip(b: KjvBook)
    ensures FromKjvName(ToKjvName(b)) == Some(b)
  {
    if b < 11 {
      RoundTripPart1(b);
    } else if b < 22 {
      RoundTripPart2(b);
    } else if b < 33 {
      RoundTripPart3(b);
    } else if b < 39 {
      RoundTripPart4(b);
    } else if b < 44 {
      RoundTripPart5(b);
    } else if b < 50 {
      RoundTripPart6(b);
    } else if b < 55 {
      RoundTripPart7(b);
    } else if b < 61 {
      RoundTripPart8(b);
    } else {
      RoundTripPart9(b);
    }
  }

  lemma RoundTripPart1(b: KjvBook)
    requires b < 11
    ensures FromKjvName(ToKjvName(b)) == Some(b)
  {
  }

  lemma RoundTripPart2(b: KjvBook)
    requires 11 <= b < 22
    ensures FromKjvName(ToKjvName(b)) == Some(b)
  {
  }

  lemma RoundTripPart3(b: KjvBook)
    requires 22 <= b < 33
    ensures FromKjvName(ToKjvName(b)) == Some(b)
  {
  }

  lemma RoundTripPart4(b: KjvBook)
    requires 33 <= b < 39
    ensures FromKjvName(ToKjvName(b)) == Some(b)
  {
  }

  lemma RoundTripPart5(b: KjvBook)
    requires 39 <= b < 44
    ensures FromKjvName(ToKjvName(b)) == Some(b)
  {
  }

  lemma RoundTripPart6(b: KjvBook)
    requires 44 <= b < 50
    ensures FromKjvName(ToKjvName(b)) == Some(b)
  {
  }

  lemma RoundTripPart7(b: KjvBook)
    requires 50 <= b < 55
    ensures FromKjvName(ToKjvName(b)) == Some(b)
  {
  }

  lemma RoundTripPart8(b: KjvBook)
    requires 55 <= b < 61
    ensures FromKjvName(ToKjvName(b)) == Some(b)
  {
  }

  lemma RoundTripPart9(b: KjvBook)
    requires 61 <= b
    ensures FromKjvName(ToKjvName(b)) == Some(b)
  {
  }

  /** `from_kjv_name` recognises only the titles `to_kjv_name` writes. The
      proof takes one leading character at a time. */
  lemma FromKjvNameSound(name: string)
    ensures FromKjvName(name).Some? ==> ToKjvName(FromKjvName(name).value) == name
  {
    if |name| > 0 {
      match name[0]
      case 'A' => SoundFromA(name);
      case 'C' => SoundFromC(name);
      case 'D' => SoundFromD(name);
      case 'E' => SoundFromE(name);
      case 'G' => SoundFromG(name);
      case 'H' => SoundFromH(name);
      case 'I' =>
        if |name| > 1 && name[1] == ' ' {
          SoundFromISpace(name);
        } else {
          SoundFromI(name);
        }
      case 'J' => SoundFromJ(name);
      case 'L' => SoundFromL(name);
      case 'M' => SoundFromM(name);
      case 'N' => SoundFromN(name);
      case 'O' => SoundFromO(name);
      case 'P' => SoundFromP(name);
      case 'R' => SoundFromR(name);
      case 'S' => SoundFromS(name);
      case 'T' => SoundFromT(name);
      case 'Z' => SoundFromZ(name);
      case _ =>
    }
  }

  lemma SoundFromA(name: string)
    requires |name| > 0 && name[0] == 'A'
    ensures FromKjvName(name).Some? ==> ToKjvName(FromKjvName(name).value) == name
  {
  }

  lemma SoundFromC(name: string)
    requires |name| > 0 && name[0] == 'C'
    ensures FromKjvName(name).Some? ==> ToKjvName(FromKjvName(name).value) == name
  {
  }

  lemma SoundFromD(name: string)
    requires |name| > 0 && name[0] == 'D'
    ensures FromKjvName(name).Some? ==> ToKjvName(FromKjvName(name).value) == name
  {
  }

  lemma SoundFromE(name: string)
    requires |name| > 0 && name[0] == 'E'
    ensures FromKjvName(name).Some? ==> ToKjvName(FromKjvName(name).value) == name
  {
  }

  lemma SoundFromG(name: string)
    requires |name| > 0 && name[0] == 'G'
    ensures FromKjvName(name).Some? ==> ToKjvName(FromKjvName(name).value) == name
  {
  }

  lemma SoundFromH(name: string)
    requires |name| > 0 && name[0] == 'H'
    ensures FromKjvName(name).Some? ==> ToKjvName(FromKjvName(name).value) == name
  {
  }

  lemma SoundFromISpace(name: string)
    requires |name| > 1 && name[0] == 'I' && name[1] == ' '
    ensures FromKjvName(name).Some? ==> ToKjvName(FromKjvName(name).value) == name
  {
  }

  lemma SoundFromI(name: string)
    requires |name| > 0 && name[0] == 'I' && (|name| == 1 || name[1] != ' ')
    ensures FromKjvName(name).Some? ==> ToKjvName(FromKjvName(name).value) == name
  {
  }

  lemma SoundFromJ(name: string)
    requires |name| > 0 && name[0] == 'J'
    ensures FromKjvName(name).Some? ==> ToKjvName(FromKjvName(name).value) == name
  {
  }

  lemma SoundFromL(name: string)
    requires |name| > 0 && name[0] == 'L'
    ensures FromKjvName(name).Some? ==> ToKjvName(FromKjvName(name).value) == name
  {
  }

  lemma SoundFromM(name: string)
    requires |name| > 0 && name[0] == 'M'
    ensures FromKjvName(name).Some? ==> ToKjvName(FromKjvName(name).value) == name
  {
  }

  lemma SoundFromN(name: string)
    requires |name| > 0 && name[0] == 'N'
    ensures FromKjvName(name).Some? ==> ToKjvName(FromKjvName(name).value) == name
  {
  }

  lemma SoundFromO(name: string)
    requires |name| > 0 && name[0] == 'O'
    ensures FromKjvName(name).Some? ==> ToKjvName(FromKjvName(name).value) == name
  {
  }

  lemma SoundFromP(name: string)
    requires |name| > 0 && name[0] == 'P'
    ensures FromKjvName(name).Some? ==> ToKjvName(FromKjvName(name).value) == name
  {
  }

  lemma SoundFromR(name: string)
    requires |name| > 0 && name[0] == 'R'
    ensures FromKjvName(name).Some? ==> ToKjvName(FromKjvName(name).value) == name
  {
  }

  lemma SoundFromS(name: string)
    requires |name| > 0 && name[0] == 'S'
    ensures FromKjvName(name).Some? ==> ToKjvName(FromKjvName(name).value) == name
  {
  }

  lemma SoundFromT(name: string)
    requires |name| > 0 && name[0] == 'T'
    ensures FromKjvName(name).Some? ==> ToKjvName(FromKjvName(name).value) == name
  {
  }

  lemma SoundFromZ(name: string)
    requires |name| > 0 && name[0] == 'Z'
    ensures FromKjvName(name).Some? ==> ToKjvName(FromKjvName(name).value) == name
  {
  }

  /** `is_standard_book`: the book's name is one of the 66 KJV titles. */
  predicate IsStandardBook(book: Book) {
    FromKjvName(book.name).Some?
  }

  lemma StandardBookIff(book: Book)
    ensures IsStandardBook(book) <==> exists b: KjvBook :: ToKjvName(b) == book.name
  {
    FromKjvNameSound(book.name);
    if b: KjvBook :| ToKjvName(b) == book.name {
      KjvRoundTrip(b);
    }
  }

  /** `split_whitespace().count()`. */
  function WordCount(text: string): nat {
    |SplitWhitespace(text)|
  }

  /** `Chapter::suspicious_verse_amount`. */
  predicate SuspiciousVerseAmount(c: Chapter) {
    |c.verses| < 3 || |c.verses| > 200
  }

  /** `Verse::suspicious`. */
  predicate SuspiciousVerse(v: Verse) {
    WordCount(v.text) < 3 || WordCount(v.text) > 150
  }

  /** Book `i` of the list carries the `i`-th KJV title. */
  predicate InPlace(books: seq<Book>, i: nat)
    requires |books| == 66 && i < 66
  {
    books[i].name == ToKjvName(AllBooksInOrder()[i])
  }

  /** The first position from `i` on whose title is wrong, or 66. */
  function FirstMisplaced(books: seq<Book>, i: nat): (r: nat)
    requires |books| == 66 && i <= 66
    ensures i <= r <= 66
    ensures forall j :: i <= j < r ==> InPlace(books, j)
    ensures r < 66 ==> !InPlace(books, r)
    decreases 66 - i
  {
    if i == 66 || !InPlace(books, i) then i else FirstMisplaced(books, i + 1)
  }

  /** `verify_book_order`: exactly 66 books, titled as the KJV, in order. */
  function VerifyBookOrder(bible: Bible): (r: bool)
    ensures r <==> |bible.books| == 66 && forall i :: 0 <= i < 66 ==> InPlace(bible.books, i)
  {
    |bible.books| == 66 && FirstMisplaced(bible.books, 0) == 66
  }

  const U32_LIMIT: int := 0x1_0000_0000

  /** One step of the loop over names that follows the order check. */
  function NameCheck(book: Book): Result<(), ValidationError> {
    if IsStandardBook(book) then Ok(()) else Err(InvalidBookName(book.name))
  }

  function VerseCheck(v: Verse): Result<(), ValidationError> {
    if SuspiciousVerse(v) then Err(SuspiciousVerseLength(v)) else Ok(())
  }

  /** A plausible chapter: neither it nor any of its verses is suspicious. */
  predicate ChapterPlausible(c: Chapter) {
    !SuspiciousVerseAmount(c) && forall k :: 0 <= k < |c.verses| ==> !SuspiciousVerse(c.verses[k])
  }

  /** The body of the chapter loop: the chapter's own length is checked
      before any of its verses, and the first suspicious verse is the one
      reported. */
  function ChapterCheck(c: Chapter): (r: Result<(), ValidationError>)
    ensures r.Ok? <==> ChapterPlausible(c)
    ensures r.Err? ==> r.error.SuspiciousChapterLength? || r.error.SuspiciousVerseLength?
    ensures SuspiciousVerseAmount(c) ==> r == Err(SuspiciousChapterLength(c))
    ensures !SuspiciousVerseAmount(c) && r.Err? ==>
      exists k :: 0 <= k < |c.verses| && SuspiciousVerse(c.verses[k]) && r.error == SuspiciousVerseLength(c.verses[k])
        && forall j :: 0 <= j < k ==> !SuspiciousVerse(c.verses[j])
  {
    if SuspiciousVerseAmount(c) then Err(SuspiciousChapterLength(c))
    else TryEach(c.verses, VerseCheck)
  }

  function BookCheck(book: Book): (r: Result<(), ValidationError>)
    ensures r.Ok? <==> forall k :: 0 <= k < |book.chapters| ==> ChapterPlausible(book.chapters[k])
    ensures r.Err? ==> r.error.SuspiciousChapterLength? || r.error.SuspiciousVerseLength?
    ensures r.Err? ==>
      exists k :: 0 <= k < |book.chapters| && ChapterCheck(book.chapters[k]) == Err(r.error)
        && forall j :: 0 <= j < k ==> ChapterPlausible(book.chapters[j])
  {
    TryEach(book.chapters, ChapterCheck)
  }

  /** `Bible::is_valid`. The count is cast to `u32`, so a list of 2^32 + 66
      books reports 66. */
  function IsValid(bible: Bible): Result<(), ValidationError> {
    var books := bible.books;
    if |books| != 66 then Err(BookAmount(|books| % U32_LIMIT))
    else
      var i := FirstMisplaced(books, 0);
      if i < 66 then
        if IsStandardBook(books[i]) then Err(BookAmount(i + 1)) else Err(InvalidBookName(books[i].name))
      else
        var names := TryEach(books, NameCheck);
        if names.Err? then names else TryEach(books, BookCheck)
  }

  /** Not 66 books: the (truncated) count is the error. */
  lemma IsValidBookCount(bible: Bible)
    ensures |bible.books| != 66 ==> IsValid(bible) == Err(BookAmount(|bible.books| % U32_LIMIT))
  {
  }

  /** With 66 books a `BookAmount` error names instead the 1-based position
      of a known title that is out of place. */
  lemma IsValidMisplacedPosition(bible: Bible)
    requires |bible.books| == 66
    ensures IsValid(bible).Err? && IsValid(bible).error.BookAmount? ==>
      var n := IsValid(bible).error.amount;
      1 <= n <= 66 && IsStandardBook(bible.books[n - 1]) && !InPlace(bible.books, n - 1)
  {
    var i := FirstMisplaced(bible.books, 0);
    if i == 66 {
      NameLoopPasses(bible);
      assert IsValid(bible) == TryEach(bible.books, BookCheck);
      BookLoopLengthsOnly(bible.books);
    } else {
      IsValidFirstMismatch(bible, i);
    }
  }

  /** The loop over the books' contents reports only length errors. */
  lemma BookLoopLengthsOnly(books: seq<Book>)
    ensures TryEach(books, BookCheck).Err? ==>
      TryEach(books, BookCheck).error.SuspiciousChapterLength? || TryEach(books, BookCheck).error.SuspiciousVerseLength?
  {
    var r := TryEach(books, BookCheck);
    if r.Err? {
      var k :| 0 <= k < |books| && BookCheck(books[k]) == Err(r.error);
    }
  }

  /** At the first position whose title is wrong, an unknown title is
      reported by name and a known one as `BookAmount(i + 1)`. */
  lemma IsValidFirstMismatch(bible: Bible, i: nat)
    requires |bible.books| == 66 && i < 66
    requires !InPlace(bible.books, i)
    requires forall j :: 0 <= j < i ==> InPlace(bible.books, j)
    ensures !IsStandardBook(bible.books[i]) ==> IsValid(bible) == Err(InvalidBookName(bible.books[i].name))
    ensures IsStandardBook(bible.books[i]) ==> IsValid(bible) == Err(BookAmount(i + 1))
  {
    assert FirstMisplaced(bible.books, 0) == i;
  }

  /** Once the order check passes every name is a KJV title, so the second
      loop over names can never fail. */
  lemma {:induction false} NameLoopPasses(bible: Bible)
    requires VerifyBookOrder(bible)
    ensures TryEach(bible.books, NameCheck).Ok?
  {
    forall i | 0 <= i < 66 ensures NameCheck(bible.books[i]).Ok? {
      assert InPlace(bible.books, i);
      KjvRoundTrip(AllBooksInOrder()[i]);
    }
  }

  /** A valid Bible is in KJV order. */
  lemma IsValidOrder(bible: Bible)
    ensures IsValid(bible).Ok? ==> VerifyBookOrder(bible)
  {
  }

  /** `is_valid` succeeds exactly when the books are the KJV's in order and
      no chapter or verse has an implausible length. */
  lemma IsValidIff(bible: Bible)
    ensures IsValid(bible).Ok? <==>
      VerifyBookOrder(bible)
      && forall b, k :: 0 <= b < |bible.books| && 0 <= k < |bible.books[b].chapters| ==> ChapterPlausible(bible.books[b].chapters[k])
  {
    if VerifyBookOrder(bible) {
      NameLoopPasses(bible);
    }
  }

  /** With the books in order, the error is that of the first book whose
      contents fail, which is in turn its first implausible chapter's. */
  lemma IsValidFirstSuspicious(bible: Bible)
    requires VerifyBookOrder(bible)
    ensures IsValid(bible).Err? ==>
      exists b :: 0 <= b < 66 && BookCheck(bible.books[b]) == IsValid(bible)
        && forall a :: 0 <= a < b ==> BookCheck(bible.books[a]).Ok?
  {
    NameLoopPasses(bible);
  }
}
