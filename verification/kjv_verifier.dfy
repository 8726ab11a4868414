/** The check sequence of the command-line verifier (bible-verify/src/verifier.rs,
    `verify_bible`) on an already parsed Bible: the book count, then book by
    book and chapter by chapter the chapter length, the verse numbers 1..n,
    repeated verse numbers and verse lengths. The first failure is returned.
    The verifier declares its own structs of the same shape as the library's;
    the model reuses those of `KjvTypes`. */
module KjvVerifier {
  import opened Wrappers
  import KjvTypes

  type Verse = KjvTypes.Verse
  type Chapter = KjvTypes.Chapter
  type Book = KjvTypes.Book
  type Bible = KjvTypes.Bible

  /** `VerificationError` without its source spans; the I/O and JSON
      variants belong to reading the file. */
  datatype VerificationError =
    | InvalidBookCount(found: nat)
    | SuspiciousChapter(book: string, chapter: nat, verseCount: nat, help: string)
    | SuspiciousVerse(book: string, chapter: nat, verse: nat, wordCount: nat, help: string)
    | MissingVerse(book: string, chapter: nat, verse: nat)
    | DuplicateVerse(book: string, chapter: nat, verse: nat)

  const FewVersesHelp: string := "Most Bible chapters have at least 3 verses (except Psalm 117)"
  const ManyVersesHelp: string := "No Bible chapter has more than 200 verses (Psalm 119 has 176)"
  const FewWordsHelp: string := "Bible verses should have at least 2 words"
  const ManyWordsHelp: string := "Very few Bible verses exceed 150 words"

  /** Psalm 117, the one chapter allowed fewer than three verses. */
  predicate IsPsalm117(book: Book, c: Chapter) {
    book.name == "Psalms" && c.chapter == 117
  }

  predicate ImplausibleChapter(book: Book, c: Chapter) {
    (|c.verses| < 3 && !IsPsalm117(book, c)) || |c.verses| > 200
  }

  function WordCount(v: Verse): nat {
    KjvTypes.WordCount(v.text)
  }

  predicate ImplausibleVerse(v: Verse) {
    WordCount(v) < 2 || WordCount(v) > 150
  }

  /** `chapter.verses.iter().any(|v| v.verse == i)`. */
  predicate HasVerse(verses: seq<Verse>, i: nat) {
    exists k :: 0 <= k < |verses| && verses[k].verse == i
  }

  /** The loop `for i in 1..=n` from `i` on: the first number without a
      verse, if any. */
  function FirstMissing(verses: seq<Verse>, i: nat, n: nat): (r: Option<nat>)
    requires 1 <= i
    ensures r.None? <==> forall j :: i <= j <= n ==> HasVerse(verses, j)
    ensures r.Some? ==>
      i <= r.value <= n && !HasVerse(verses, r.value) && forall j :: i <= j < r.value ==> HasVerse(verses, j)
    decreases n + 1 - i
  {
    if i > n then None
    else if !HasVerse(verses, i) then Some(i)
    else FirstMissing(verses, i + 1, n)
  }

  /** The number of verse `k` was already seen among verses `0..k`. */
  predicate Repeated(verses: seq<Verse>, k: nat)
    requires k < |verses|
  {
    exists j :: 0 <= j < k && verses[j].verse == verses[k].verse
  }

  predicate BadVerse(verses: seq<Verse>, k: nat)
    requires k < |verses|
  {
    Repeated(verses, k) || ImplausibleVerse(verses[k])
  }

  /** What the verse loop reports for a bad verse `k`: the repeat wins over
      the word count. */
  function VerseError(book: string, chapter: nat, verses: seq<Verse>, k: nat): VerificationError
    requires k < |verses|
  {
    var v := verses[k];
    if Repeated(verses, k) then DuplicateVerse(book, chapter, v.verse)
    else SuspiciousVerse(book, chapter, v.verse, WordCount(v), if WordCount(v) < 2 then FewWordsHelp else ManyWordsHelp)
  }

  /** The numbers of verses `0..k`: the `seen_verses` set after `k` steps. */
  function SeenBefore(verses: seq<Verse>, k: nat): set<nat>
    requires k <= |verses|
  {
    set j | 0 <= j < k :: verses[j].verse
  }

  /** The verse loop from verse `k` on, with `seen` the numbers inserted so
      far. */
  function ScanVerses(book: string, chapter: nat, verses: seq<Verse>, k: nat, seen: set<nat>): Result<(), VerificationError>
    requires k <= |verses|
    decreases |verses| - k
  {
    if k == |verses| then Ok(())
    else
      var v := verses[k];
      if v.verse in seen then Err(DuplicateVerse(book, chapter, v.verse))
      else if ImplausibleVerse(v) then
        Err(SuspiciousVerse(book, chapter, v.verse, WordCount(v), if WordCount(v) < 2 then FewWordsHelp else ManyWordsHelp))
      else ScanVerses(book, chapter, verses, k + 1, seen + {v.verse})
  }

  /** One chapter of `verify_bible`, as written. */
  function VerifyChapter(book: Book, c: Chapter): Result<(), VerificationError> {
    var n := |c.verses|;
    if ImplausibleChapter(book, c) then
      Err(SuspiciousChapter(book.name, c.chapter, n, if n < 3 then FewVersesHelp else ManyVersesHelp))
    else match FirstMissing(c.verses, 1, n)
      case Some(i) => Err(MissingVerse(book.name, c.chapter, i))
      case None => ScanVerses(book.name, c.chapter, c.verses, 0, {})
  }

  function VerifyBook(book: Book): Result<(), VerificationError> {
    TryEach(book.chapters, c => VerifyChapter(book, c))
  }

  /** `verify_bible` after parsing. */
  function VerifyBible(bible: Bible): (r: Result<(), VerificationError>)
    ensures |bible.books| != 66 ==> r == Err(InvalidBookCount(|bible.books|))
    ensures |bible.books| == 66 ==> (r.Ok? <==> forall b :: 0 <= b < 66 ==> VerifyBook(bible.books[b]).Ok?)
    ensures |bible.books| == 66 && r.Err? ==>
      exists b :: 0 <= b < 66 && VerifyBook(bible.books[b]) == r
        && forall a :: 0 <= a < b ==> VerifyBook(bible.books[a]).Ok?
  {
    if |bible.books| != 66 then Err(InvalidBookCount(|bible.books|))
    else TryEach(bible.books, VerifyBook)
  }

  /** The numbers `1..n`. */
  function RangeSet(n: nat): (r: set<nat>)
    ensures forall i :: i in r <==> 1 <= i <= n
    ensures |r| == n
  {
    if n == 0 then {} else RangeSet(n - 1) + {n}
  }

  lemma SubsetSize<T>(a: set<T>, b: set<T>)
    requires a <= b
    ensures |a| <= |b|
    ensures |a| == |b| ==> a == b
  {
    assert b == (b - a) + a;
    assert |b| == |b - a| + |a|;
    if |a| == |b| {
      assert |b - a| == 0;
      assert b - a == {};
    }
  }

  predicate NoRepeats(verses: seq<Verse>) {
    forall k :: 0 <= k < |verses| ==> !Repeated(verses, k)
  }

  /** Inserting verse `k` into the seen set adds its number. */
  lemma SeenStep(verses: seq<Verse>, k: nat)
    requires k < |verses|
    ensures SeenBefore(verses, k + 1) == SeenBefore(verses, k) + {verses[k].verse}
    ensures verses[k].verse in SeenBefore(verses, k) <==> Repeated(verses, k)
  {
    assert verses[k].verse in SeenBefore(verses, k) ==> Repeated(verses, k);
  }

  /** The seen set after `k` steps has `k` numbers exactly when none of the
      first `k` verses repeats a number, and fewer otherwise. */
  lemma {:induction false} SeenSize(verses: seq<Verse>, k: nat)
    requires k <= |verses|
    ensures |SeenBefore(verses, k)| <= k
    ensures |SeenBefore(verses, k)| == k <==> forall m :: 0 <= m < k ==> !Repeated(verses, m)
  {
    if k > 0 {
      SeenSize(verses, k - 1);
      SeenStep(verses, k - 1);
    }
  }

  /** The verse loop passes exactly when no verse from `k` on is bad. */
  lemma {:induction false} ScanVersesOk(book: string, chapter: nat, verses: seq<Verse>, k: nat, seen: set<nat>)
    requires k <= |verses| && seen == SeenBefore(verses, k)
    ensures ScanVerses(book, chapter, verses, k, seen).Ok? <==> forall m :: k <= m < |verses| ==> !BadVerse(verses, m)
    decreases |verses| - k
  {
    if k < |verses| {
      SeenStep(verses, k);
      if !BadVerse(verses, k) {
        ScanVersesOk(book, chapter, verses, k + 1, seen + {verses[k].verse});
      }
    }
  }

  /** It reports its first bad verse: a repeat as `DuplicateVerse`,
      otherwise the word count. */
  lemma {:induction false} ScanVersesFirst(book: string, chapter: nat, verses: seq<Verse>, k: nat, seen: set<nat>)
    requires k <= |verses| && seen == SeenBefore(verses, k)
    ensures ScanVerses(book, chapter, verses, k, seen).Err? ==>
      exists m :: k <= m < |verses| && BadVerse(verses, m) && (forall j :: k <= j < m ==> !BadVerse(verses, j))
        && ScanVerses(book, chapter, verses, k, seen).error == VerseError(book, chapter, verses, m)
    decreases |verses| - k
  {
    if k < |verses| {
      SeenStep(verses, k);
      if !BadVerse(verses, k) {
        ScanVersesFirst(book, chapter, verses, k + 1, seen + {verses[k].verse});
      }
    }
  }

  /** A chapter of implausible length is reported before anything else, and
      that report is only made for such a chapter. */
  lemma ChapterSuspicious(book: Book, c: Chapter)
    ensures ImplausibleChapter(book, c) ==>
      VerifyChapter(book, c) == Err(SuspiciousChapter(book.name, c.chapter, |c.verses|,
        if |c.verses| < 3 then FewVersesHelp else ManyVersesHelp))
    ensures VerifyChapter(book, c).Err? && VerifyChapter(book, c).error.SuspiciousChapter? ==> ImplausibleChapter(book, c)
  {
    if !ImplausibleChapter(book, c) && FirstMissing(c.verses, 1, |c.verses|).None? {
      var r := ScanVerses(book.name, c.chapter, c.verses, 0, {});
      ScanVersesFirst(book.name, c.chapter, c.verses, 0, {});
      assert r.Err? ==> exists m :: 0 <= m < |c.verses| && r.error == VerseError(book.name, c.chapter, c.verses, m);
    }
  }

  /** Otherwise the smallest number of `1..n` without a verse is reported. */
  lemma ChapterMissing(book: Book, c: Chapter, m: nat)
    requires !ImplausibleChapter(book, c)
    requires 1 <= m <= |c.verses| && !HasVerse(c.verses, m)
    requires forall j :: 1 <= j < m ==> HasVerse(c.verses, j)
    ensures VerifyChapter(book, c) == Err(MissingVerse(book.name, c.chapter, m))
  {
    var r := FirstMissing(c.verses, 1, |c.verses|);
    assert r.Some?;
    assert r.value == m;
  }

  /** A chapter passes exactly when its length is plausible, every number of
      `1..n` has a verse, and no verse repeats a number or has an
      implausible word count. */
  lemma ChapterOkIff(book: Book, c: Chapter)
    ensures VerifyChapter(book, c).Ok? <==>
      !ImplausibleChapter(book, c)
      && (forall j :: 1 <= j <= |c.verses| ==> HasVerse(c.verses, j))
      && forall k :: 0 <= k < |c.verses| ==> !BadVerse(c.verses, k)
  {
    ScanVersesOk(book.name, c.chapter, c.verses, 0, {});
  }

  /** A passing chapter's verse numbers are exactly `1..n`, each once. */
  lemma ChapterOkExact(book: Book, c: Chapter)
    requires VerifyChapter(book, c).Ok?
    ensures SeenBefore(c.verses, |c.verses|) == RangeSet(|c.verses|)
    ensures NoRepeats(c.verses)
  {
    var n := |c.verses|;
    ChapterOkIff(book, c);
    SeenSize(c.verses, n);
    forall i | i in RangeSet(n) ensures i in SeenBefore(c.verses, n) {
      assert HasVerse(c.verses, i);
    }
    SubsetSize(RangeSet(n), SeenBefore(c.verses, n));
  }

  /** A repeated number among `n` verses leaves some number of `1..n`
      without a verse, so the missing-verse loop fires first. */
  lemma RepeatReportsMissing(book: Book, c: Chapter, k: nat)
    requires !ImplausibleChapter(book, c)
    requires k < |c.verses| && Repeated(c.verses, k)
    ensures VerifyChapter(book, c).Err? && VerifyChapter(book, c).error.MissingVerse?
  {
    var n := |c.verses|;
    SeenSize(c.verses, n);
    if FirstMissing(c.verses, 1, n).None? {
      forall i | i in RangeSet(n) ensures i in SeenBefore(c.verses, n) {
        assert HasVerse(c.verses, i);
      }
      SubsetSize(RangeSet(n), SeenBefore(c.verses, n));
    }
  }

  /** Hence `DuplicateVerse` is never reported. */
  lemma DuplicateNeverReported(book: Book, c: Chapter)
    ensures !(VerifyChapter(book, c).Err? && VerifyChapter(book, c).error.DuplicateVerse?)
  {
    var n := |c.verses|;
    if ImplausibleChapter(book, c) {
    } else if k :| 0 <= k < n && Repeated(c.verses, k) {
      RepeatReportsMissing(book, c, k);
    } else if FirstMissing(c.verses, 1, n).None? {
      ScanVersesFirst(book.name, c.chapter, c.verses, 0, {});
      var r := ScanVerses(book.name, c.chapter, c.verses, 0, {});
      if r.Err? {
        var m :| 0 <= m < n && BadVerse(c.verses, m) && r.error == VerseError(book.name, c.chapter, c.verses, m);
        assert !Repeated(c.verses, m);
      }
    }
  }

  /** Verses numbered 1, 1, 2: the repeated 1 is reported as a missing 3. */
  lemma RepeatedVerseExample()
    ensures
      var c := KjvTypes.Chapter(1, "", [KjvTypes.Verse(1, 1, "", ""), KjvTypes.Verse(1, 1, "", ""), KjvTypes.Verse(2, 1, "", "")]);
      VerifyChapter(KjvTypes.Book("Genesis", [c]), c) == Err(MissingVerse("Genesis", 1, 3))
  {
    var c := KjvTypes.Chapter(1, "", [KjvTypes.Verse(1, 1, "", ""), KjvTypes.Verse(1, 1, "", ""), KjvTypes.Verse(2, 1, "", "")]);
    assert c.verses[0].verse == 1 && c.verses[2].verse == 2;
    assert HasVerse(c.verses, 1) && HasVerse(c.verses, 2) && !HasVerse(c.verses, 3);
    ChapterMissing(KjvTypes.Book("Genesis", [c]), c, 3);
  }

  /** The chapter check with the verse loop before the missing-number loop,
      so that a repeated number is reported as a duplicate. */
  function VerifyChapterIntended(book: Book, c: Chapter): Result<(), VerificationError> {
    var n := |c.verses|;
    if ImplausibleChapter(book, c) then
      Err(SuspiciousChapter(book.name, c.chapter, n, if n < 3 then FewVersesHelp else ManyVersesHelp))
    else match ScanVerses(book.name, c.chapter, c.verses, 0, {})
      case Err(e) => Err(e)
      case Ok(_) =>
        match FirstMissing(c.verses, 1, n)
        case Some(i) => Err(MissingVerse(book.name, c.chapter, i))
        case None => Ok(())
  }

  /** The reordering accepts the same chapters. */
  lemma IntendedAcceptsSame(book: Book, c: Chapter)
    ensures VerifyChapterIntended(book, c).Ok? <==> VerifyChapter(book, c).Ok?
  {
  }

  /** With the verse loop first, the first repeated number is reported as a
      duplicate unless an earlier verse has an implausible word count. */
  lemma DuplicateReported(book: Book, c: Chapter, k: nat)
    requires !ImplausibleChapter(book, c)
    requires k < |c.verses| && Repeated(c.verses, k)
    requires forall j :: 0 <= j < k ==> !BadVerse(c.verses, j)
    ensures VerifyChapterIntended(book, c) == Err(DuplicateVerse(book.name, c.chapter, c.verses[k].verse))
  {
    ScanVersesOk(book.name, c.chapter, c.verses, 0, {});
    ScanVersesFirst(book.name, c.chapter, c.verses, 0, {});
    var r := ScanVerses(book.name, c.chapter, c.verses, 0, {});
    assert BadVerse(c.verses, k);
    var m :| 0 <= m < |c.verses| && BadVerse(c.verses, m) && (forall j :: 0 <= j < m ==> !BadVerse(c.verses, j))
      && r.error == VerseError(book.name, c.chapter, c.verses, m);
    assert m == k;
  }

  function VerifyBookIntended(book: Book): Result<(), VerificationError> {
    TryEach(book.chapters, c => VerifyChapterIntended(book, c))
  }

  /** `verify_bible` with the reordered chapter check. */
  function VerifyBibleIntended(bible: Bible): (r: Result<(), VerificationError>)
    ensures |bible.books| != 66 ==> r == Err(InvalidBookCount(|bible.books|))
    ensures |bible.books| == 66 && r.Err? ==>
      exists b :: 0 <= b < 66 && VerifyBookIntended(bible.books[b]) == r
        && forall a :: 0 <= a < b ==> VerifyBookIntended(bible.books[a]).Ok?
  {
    if |bible.books| != 66 then Err(InvalidBookCount(|bible.books|))
    else TryEach(bible.books, VerifyBookIntended)
  }

  /** Both versions accept the same Bibles. */
  lemma IntendedBibleAcceptsSame(bible: Bible)
    ensures VerifyBibleIntended(bible).Ok? <==> VerifyBible(bible).Ok?
  {
    forall b | 0 <= b < |bible.books|
      ensures VerifyBookIntended(bible.books[b]).Ok? <==> VerifyBook(bible.books[b]).Ok?
    {
      var book := bible.books[b];
      forall k | 0 <= k < |book.chapters|
        ensures VerifyChapterIntended(book, book.chapters[k]).Ok? <==> VerifyChapter(book, book.chapters[k]).Ok?
      {
        IntendedAcceptsSame(book, book.chapters[k]);
      }
    }
  }
}
