/** The reader's data model: a Bible is a list of books, a book a list of
    chapters, a chapter a list of verses. Verse ranges from the query string,
    chapter paths (`/<book>/<chapter>`), and navigation between chapters and
    books, including the n-step walks. */
module BibleCore {
  import opened Wrappers
  import opened Strings
  import opened Percent

  datatype Verse = Verse(verse: nat, chapter: nat, name: string, text: string)
  datatype Chapter = Chapter(chapter: nat, name: string, verses: seq<Verse>)
  datatype Book = Book(name: string, chapters: seq<Chapter>)
  datatype Bible = Bible(books: seq<Book>)

  /** A closed range of verse numbers, `start..=end`. */
  datatype VerseRange = VerseRange(start: nat, end: nat)

  datatype ParamParseError = ChapterNotFound | BookNotFound

  // ---------------------------------------------------------------------------
  // Verse ranges

  /** `VerseRange::contains`. */
  predicate InRange(r: VerseRange, v: nat) {
    r.start <= v <= r.end
  }

  /** `VerseRange::from_string`: `"a-b"` (each side trimmed) with `a <= b`, or a
      single trimmed number `n` meaning `n-n`. */
  function FromString(s: string): (r: Option<VerseRange>)
    ensures r.Some? ==> r.value.start <= r.value.end < U32_LIMIT
    ensures '-' !in s ==> r == (match ParseU32(Trim(s)) case Some(n) => Some(VerseRange(n, n)) case None => None)
  {
    match SplitOnce(s, '-')
    case Some((a, b)) =>
      (match (ParseU32(Trim(a)), ParseU32(Trim(b)))
       case (Some(x), Some(y)) => if x <= y then Some(VerseRange(x, y)) else None
       case _ => None)
    case None =>
      match ParseU32(Trim(s))
      case Some(n) => Some(VerseRange(n, n))
      case None => None
  }

  /** The text of one range in a `verses=` parameter: `"s"` or `"s-e"`. */
  function RangeText(r: VerseRange): string {
    if r.start == r.end then NatToString(r.start)
    else NatToString(r.start) + "-" + NatToString(r.end)
  }

  predicate ValidRange(r: VerseRange) {
    r.start <= r.end < U32_LIMIT
  }

  /** Formatting a valid range and parsing it back gives the range. */
  lemma FromStringRangeText(r: VerseRange)
    requires ValidRange(r)
    ensures FromString(RangeText(r)) == Some(r)
  {
    ParseTrimmedNumber(r.start);
    if r.start != r.end {
      FromStringPair(r.start, r.end);
    }
  }

  /** `"a-b"` is accepted exactly when `a <= b`. */
  lemma FromStringPair(a: nat, b: nat)
    requires a < U32_LIMIT && b < U32_LIMIT
    ensures FromString(NatToString(a) + "-" + NatToString(b))
         == (if a <= b then Some(VerseRange(a, b)) else None)
  {
    ParseTrimmedNumber(a);
    ParseTrimmedNumber(b);
    SplitOnceFirst(NatToString(a), '-', NatToString(b));
  }

  lemma ParseTrimmedNumber(n: nat)
    requires n < U32_LIMIT
    ensures ParseU32(Trim(NatToString(n))) == Some(n)
    ensures '-' !in NatToString(n)
  {
    var a := NatToString(n);
    NatToStringNoWhitespace(n);
    TrimNoWhitespace(a);
    ParseNatToString(n);
    assert AllDigits(a);
  }

  /** The comma-separated list of a `verses=` parameter. */
  function RangesParam(rs: seq<VerseRange>): string {
    Join(seq(|rs|, i requires 0 <= i < |rs| => RangeText(rs[i])), ",")
  }

  // ---------------------------------------------------------------------------
  // Chapter paths

  /** The book part of a chapter's name: every whitespace-separated word but the
      last, joined by single spaces, or the whole name when it has at most one word. */
  function PathBook(name: string): string {
    var parts := SplitWhitespace(name);
    if |parts| > 1 then Join(parts[..|parts| - 1], " ") else name
  }

  /** `Chapter::to_path`. */
  function ToPath(c: Chapter): (r: string)
    ensures StartsWith(r, "/") && EndsWith(r, "/" + NatToString(c.chapter))
  {
    var r := "/" + Encode(PathBook(c.name)) + "/" + NatToString(c.chapter);
    assert r[|r| - |NatToString(c.chapter)| - 1..] == "/" + NatToString(c.chapter);
    r
  }

  /** A chapter named `"<words> <n>"` has the path of its book words. */
  lemma PathBookDropsLastWord(words: seq<string>, last: string)
    requires |words| > 0 && IsWord(last)
    requires forall i :: 0 <= i < |words| ==> IsWord(words[i])
    ensures PathBook(Join(words + [last], " ")) == Join(words, " ")
  {
    var all := words + [last];
    assert forall i :: 0 <= i < |all| ==> IsWord(all[i]);
    SplitWhitespaceJoin(all);
    assert all[..|all| - 1] == words;
  }

  /** `Chapter::to_path_with_verses`. */
  function ToPathWithVerses(c: Chapter, rs: seq<VerseRange>): (r: string)
    ensures rs == [] ==> r == ToPath(c)
    ensures rs != [] ==> r == ToPath(c) + "?verses=" + RangesParam(rs)
  {
    if rs == [] then ToPath(c) else ToPath(c) + "?verses=" + RangesParam(rs)
  }

  /** `Chapter::get_next_verse`. */
  function NextVerse(c: Chapter, v: nat): (r: Option<nat>)
    ensures r.Some? <==> v < |c.verses|
    ensures r.Some? ==> r.value == v + 1 && 1 <= r.value <= |c.verses|
  {
    if v < |c.verses| then Some(v + 1) else None
  }

  /** `Chapter::get_previous_verse`. */
  function PreviousVerse(c: Chapter, v: nat): (r: Option<nat>)
    ensures r.Some? <==> v > 1
    ensures r.Some? ==> r.value + 1 == v
  {
    if v > 1 then Some(v - 1) else None
  }

  lemma NextPreviousVerse(c: Chapter, v: nat)
    requires 1 <= v < |c.verses|
    ensures NextVerse(c, v).Some? && PreviousVerse(c, NextVerse(c, v).value) == Some(v)
  {
  }

  // ---------------------------------------------------------------------------
  // Locating a chapter

  /** Chapters are identified by their number and their name. */
  predicate SameKey(a: Chapter, b: Chapter) {
    a.chapter == b.chapter && a.name == b.name
  }

  predicate IsPos(bible: Bible, b: nat, c: nat) {
    b < |bible.books| && c < |bible.books[b].chapters|
  }

  /** The chapter at book index `b`, chapter index `c` matches `cur`. */
  predicate MatchesAt(bible: Bible, b: nat, c: nat, cur: Chapter) {
    IsPos(bible, b, c) && SameKey(bible.books[b].chapters[c], cur)
  }

  /** No two chapters of the Bible share a (number, name) key. */
  ghost predicate UniqueKeys(bible: Bible) {
    forall b1: nat, c1: nat, b2: nat, c2: nat ::
      IsPos(bible, b1, c1) && IsPos(bible, b2, c2)
      && SameKey(bible.books[b1].chapters[c1], bible.books[b2].chapters[c2])
      ==> b1 == b2 && c1 == c2
  }

  /** The first index of a chapter with `cur`'s key (`Iterator::position`). */
  function Position(chs: seq<Chapter>, cur: Chapter): (r: Option<nat>)
    ensures r.Some? ==> r.value < |chs| && SameKey(chs[r.value], cur)
    ensures r.Some? ==> forall j :: 0 <= j < r.value ==> !SameKey(chs[j], cur)
    ensures r.None? ==> forall j :: 0 <= j < |chs| ==> !SameKey(chs[j], cur)
  {
    if |chs| == 0 then None
    else if SameKey(chs[0], cur) then Some(0)
    else match Position(chs[1..], cur)
      case None => None
      case Some(i) => Some(i + 1)
  }

  function LocateFrom(books: seq<Book>, cur: Chapter, b: nat): (r: Option<(nat, nat)>)
    requires b <= |books|
    ensures r.Some? ==> b <= r.value.0 < |books| && Position(books[r.value.0].chapters, cur) == Some(r.value.1)
    ensures r.Some? ==> forall k :: b <= k < r.value.0 ==> Position(books[k].chapters, cur).None?
    ensures r.None? ==> forall k :: b <= k < |books| ==> Position(books[k].chapters, cur).None?
    decreases |books| - b
  {
    if b == |books| then None
    else match Position(books[b].chapters, cur)
      case Some(c) => Some((b, c))
      case None => LocateFrom(books, cur, b + 1)
  }

  /** Where `cur` sits: the first book holding a chapter with its key, and the
      first such chapter in that book. */
  function Locate(bible: Bible, cur: Chapter): (r: Option<(nat, nat)>)
    ensures r.Some? ==> MatchesAt(bible, r.value.0, r.value.1, cur)
    ensures r.Some? ==> forall b: nat, c: nat :: MatchesAt(bible, b, c, cur) ==>
      r.value.0 < b || (r.value.0 == b && r.value.1 <= c)
    ensures r.None? <==> forall b: nat, c: nat :: !MatchesAt(bible, b, c, cur)
  {
    var r := LocateFrom(bible.books, cur, 0);
    if r.None? then
      r
    else
      assert MatchesAt(bible, r.value.0, r.value.1, cur);
      assert forall b: nat, c: nat :: MatchesAt(bible, b, c, cur) ==>
        r.value.0 < b || (r.value.0 == b && r.value.1 <= c) by {
        forall b: nat, c: nat | MatchesAt(bible, b, c, cur)
          ensures r.value.0 < b || (r.value.0 == b && r.value.1 <= c)
        {
          assert b < r.value.0 ==> Position(bible.books[b].chapters, cur).None?;
        }
      }
      r
  }

  /** With unique keys an actual chapter of the Bible is found at its own place. */
  lemma LocateOwnPosition(bible: Bible, b: nat, c: nat)
    requires UniqueKeys(bible) && IsPos(bible, b, c)
    ensures Locate(bible, bible.books[b].chapters[c]) == Some((b, c))
  {
    var cur := bible.books[b].chapters[c];
    assert MatchesAt(bible, b, c, cur);
    var r := Locate(bible, cur);
    assert MatchesAt(bible, r.value.0, r.value.1, cur);
  }

  // ---------------------------------------------------------------------------
  // One-step navigation

  function First(chs: seq<Chapter>): (r: Option<Chapter>)
    ensures r.Some? <==> |chs| > 0
    ensures r.Some? ==> r.value == chs[0]
  {
    if |chs| == 0 then None else Some(chs[0])
  }

  function Last(chs: seq<Chapter>): (r: Option<Chapter>)
    ensures r.Some? <==> |chs| > 0
    ensures r.Some? ==> r.value == chs[|chs| - 1]
  {
    if |chs| == 0 then None else Some(chs[|chs| - 1])
  }

  /** `Bible::get_next_chapter`: the next chapter of the same book, else the first
      chapter of the next book. */
  function NextChapter(bible: Bible, cur: Chapter): Option<Chapter> {
    match Locate(bible, cur)
    case None => None
    case Some((b, c)) =>
      if c + 1 < |bible.books[b].chapters| then Some(bible.books[b].chapters[c + 1])
      else if b + 1 < |bible.books| then First(bible.books[b + 1].chapters)
      else None
  }

  /** `Bible::get_previous_chapter`: the previous chapter of the same book, else
      the last chapter of the previous book. */
  function PreviousChapter(bible: Bible, cur: Chapter): Option<Chapter> {
    match Locate(bible, cur)
    case None => None
    case Some((b, c)) =>
      if c > 0 then Some(bible.books[b].chapters[c - 1])
      else if b > 0 then Last(bible.books[b - 1].chapters)
      else None
  }

  /** `Bible::get_next_book`: the first chapter of the next book. */
  function NextBook(bible: Bible, cur: Chapter): Option<Chapter> {
    match Locate(bible, cur)
    case None => None
    case Some((b, _)) => if b + 1 < |bible.books| then First(bible.books[b + 1].chapters) else None
  }

  /** `Bible::get_previous_book`: the first chapter of the previous book. */
  function PreviousBook(bible: Bible, cur: Chapter): Option<Chapter> {
    match Locate(bible, cur)
    case None => None
    case Some((b, _)) => if b > 0 then First(bible.books[b - 1].chapters) else None
  }

  /** Going forward then back returns to the chapter (keys unique). */
  lemma PreviousOfNext(bible: Bible, b: nat, c: nat)
    requires UniqueKeys(bible) && IsPos(bible, b, c)
    requires NextChapter(bible, bible.books[b].chapters[c]).Some?
    ensures PreviousChapter(bible, NextChapter(bible, bible.books[b].chapters[c]).value)
         == Some(bible.books[b].chapters[c])
  {
    LocateOwnPosition(bible, b, c);
    if c + 1 < |bible.books[b].chapters| {
      LocateOwnPosition(bible, b, c + 1);
    } else {
      LocateOwnPosition(bible, b + 1, 0);
    }
  }

  /** Going back then forward returns to the chapter (keys unique). */
  lemma NextOfPrevious(bible: Bible, b: nat, c: nat)
    requires UniqueKeys(bible) && IsPos(bible, b, c)
    requires PreviousChapter(bible, bible.books[b].chapters[c]).Some?
    ensures NextChapter(bible, PreviousChapter(bible, bible.books[b].chapters[c]).value)
         == Some(bible.books[b].chapters[c])
  {
    LocateOwnPosition(bible, b, c);
    if c > 0 {
      LocateOwnPosition(bible, b, c - 1);
    } else {
      LocateOwnPosition(bible, b - 1, |bible.books[b - 1].chapters| - 1);
    }
  }

  /** The first chapter of the Bible has no previous chapter. */
  lemma FirstHasNoPrevious(bible: Bible)
    requires IsPos(bible, 0, 0)
    ensures PreviousChapter(bible, bible.books[0].chapters[0]) == None
    ensures PreviousBook(bible, bible.books[0].chapters[0]) == None
  {
    var cur := bible.books[0].chapters[0];
    assert MatchesAt(bible, 0, 0, cur);
  }

  /** The last chapter of the Bible has no next chapter (keys unique). */
  lemma LastHasNoNext(bible: Bible)
    requires UniqueKeys(bible) && |bible.books| > 0
    requires |bible.books[|bible.books| - 1].chapters| > 0
    ensures var b := |bible.books| - 1;
      NextChapter(bible, bible.books[b].chapters[|bible.books[b].chapters| - 1]) == None
      && NextBook(bible, bible.books[b].chapters[|bible.books[b].chapters| - 1]) == None
  {
    var b := |bible.books| - 1;
    LocateOwnPosition(bible, b, |bible.books[b].chapters| - 1);
  }

  /** Next book then previous book lands on the first chapter of the original book. */
  lemma PreviousBookOfNextBook(bible: Bible, b: nat, c: nat)
    requires UniqueKeys(bible) && IsPos(bible, b, c)
    requires NextBook(bible, bible.books[b].chapters[c]).Some?
    ensures PreviousBook(bible, NextBook(bible, bible.books[b].chapters[c]).value)
         == Some(bible.books[b].chapters[0])
  {
    LocateOwnPosition(bible, b, c);
    LocateOwnPosition(bible, b + 1, 0);
  }

  // ---------------------------------------------------------------------------
  // n-step walks

  /** The loop of `get_nth_next_chapter_path`: `n` steps forward from (b, c),
      moving to chapter 0 of the next book at the end of a book. */
  function WalkForward(bible: Bible, b: nat, c: nat, n: nat): (r: Option<(nat, nat)>)
    ensures r.Some? ==> r.value.0 < |bible.books| || (n == 0 && r.value == (b, c))
    decreases n
  {
    if n == 0 then Some((b, c))
    else if b >= |bible.books| then None
    else if c + 1 < |bible.books[b].chapters| then WalkForward(bible, b, c + 1, n - 1)
    else if b + 1 >= |bible.books| then None
    else WalkForward(bible, b + 1, 0, n - 1)
  }

  /** The loop of `get_nth_previous_chapter_path`: `n` steps back from (b, c),
      moving to the last chapter (index 0 for an empty book) of the previous book. */
  function WalkBackward(bible: Bible, b: nat, c: nat, n: nat): (r: Option<(nat, nat)>)
    ensures r.Some? ==> r.value.0 <= b
    decreases n
  {
    if n == 0 then Some((b, c))
    else if c > 0 then WalkBackward(bible, b, c - 1, n - 1)
    else if b > 0 then
      var len := if b - 1 < |bible.books| then |bible.books[b - 1].chapters| else 0;
      if b - 1 < |bible.books| then WalkBackward(bible, b - 1, if len > 0 then len - 1 else 0, n - 1)
      else None
    else None
  }

  /** Walking `m + n` steps is walking `m` steps, then `n` more. */
  lemma {:induction false} WalkForwardCompose(bible: Bible, b: nat, c: nat, m: nat, n: nat)
    ensures WalkForward(bible, b, c, m + n)
         == (match WalkForward(bible, b, c, m)
             case None => None
             case Some((b2, c2)) => WalkForward(bible, b2, c2, n))
    decreases m
  {
    if m > 0 && b < |bible.books| {
      if c + 1 < |bible.books[b].chapters| {
        WalkForwardCompose(bible, b, c + 1, m - 1, n);
      } else if b + 1 < |bible.books| {
        WalkForwardCompose(bible, b + 1, 0, m - 1, n);
      }
    }
  }

  lemma {:induction false} WalkBackwardCompose(bible: Bible, b: nat, c: nat, m: nat, n: nat)
    ensures WalkBackward(bible, b, c, m + n)
         == (match WalkBackward(bible, b, c, m)
             case None => None
             case Some((b2, c2)) => WalkBackward(bible, b2, c2, n))
    decreases m
  {
    if m > 0 {
      if c > 0 {
        WalkBackwardCompose(bible, b, c - 1, m - 1, n);
      } else if b > 0 && b - 1 < |bible.books| {
        var len := |bible.books[b - 1].chapters|;
        WalkBackwardCompose(bible, b - 1, if len > 0 then len - 1 else 0, m - 1, n);
      }
    }
  }

  function PathAt(bible: Bible, pos: Option<(nat, nat)>): Option<string> {
    match pos
    case None => None
    case Some((b, c)) => if IsPos(bible, b, c) then Some(ToPath(bible.books[b].chapters[c])) else None
  }

  /** `Bible::get_nth_next_chapter_path`. */
  function NthNextChapterPath(bible: Bible, cur: Chapter, n: nat): Option<string> {
    match Locate(bible, cur)
    case None => None
    case Some((b, c)) => PathAt(bible, WalkForward(bible, b, c, n))
  }

  /** `Bible::get_nth_previous_chapter_path`. */
  function NthPreviousChapterPath(bible: Bible, cur: Chapter, n: nat): Option<string> {
    match Locate(bible, cur)
    case None => None
    case Some((b, c)) => PathAt(bible, WalkBackward(bible, b, c, n))
  }

  function PathOf(c: Option<Chapter>): Option<string> {
    match c
    case None => None
    case Some(ch) => Some(ToPath(ch))
  }

  /** Zero steps give the chapter's own path; an unknown chapter gives nothing. */
  lemma NthPathZero(bible: Bible, cur: Chapter)
    ensures Locate(bible, cur).Some? ==> NthNextChapterPath(bible, cur, 0) == Some(ToPath(cur))
    ensures Locate(bible, cur).Some? ==> NthPreviousChapterPath(bible, cur, 0) == Some(ToPath(cur))
    ensures Locate(bible, cur).None? ==> forall n: nat ::
      NthNextChapterPath(bible, cur, n) == None && NthPreviousChapterPath(bible, cur, n) == None
  {
  }

  /** One step of the forward walk is exactly `get_next_chapter`. */
  lemma NthNextOne(bible: Bible, cur: Chapter)
    ensures NthNextChapterPath(bible, cur, 1) == PathOf(NextChapter(bible, cur))
  {
    match Locate(bible, cur)
    case None =>
    case Some((b, c)) => StepForwardAt(bible, b, c);
  }

  lemma StepForwardAt(bible: Bible, b: nat, c: nat)
    requires IsPos(bible, b, c)
    ensures PathAt(bible, WalkForward(bible, b, c, 1))
         == PathOf(if c + 1 < |bible.books[b].chapters| then Some(bible.books[b].chapters[c + 1])
                   else if b + 1 < |bible.books| then First(bible.books[b + 1].chapters)
                   else None)
  {
    if c + 1 < |bible.books[b].chapters| {
      assert WalkForward(bible, b, c, 1) == Some((b, c + 1));
    } else if b + 1 < |bible.books| {
      assert WalkForward(bible, b, c, 1) == Some((b + 1, 0));
    } else {
      assert WalkForward(bible, b, c, 1) == None;
    }
  }

  /** One step of the backward walk is exactly `get_previous_chapter`. */
  lemma NthPreviousOne(bible: Bible, cur: Chapter)
    ensures NthPreviousChapterPath(bible, cur, 1) == PathOf(PreviousChapter(bible, cur))
  {
    match Locate(bible, cur)
    case None =>
    case Some((b, c)) => StepBackwardAt(bible, b, c);
  }

  lemma StepBackwardAt(bible: Bible, b: nat, c: nat)
    requires IsPos(bible, b, c)
    ensures PathAt(bible, WalkBackward(bible, b, c, 1))
         == PathOf(if c > 0 then Some(bible.books[b].chapters[c - 1])
                   else if b > 0 then Last(bible.books[b - 1].chapters)
                   else None)
  {
    if c > 0 {
      StepBackwardWithin(bible, b, c);
    } else if b > 0 {
      StepBackwardAcross(bible, b);
    }
  }

  lemma StepBackwardWithin(bible: Bible, b: nat, c: nat)
    requires IsPos(bible, b, c) && c > 0
    ensures PathAt(bible, WalkBackward(bible, b, c, 1)) == PathOf(Some(bible.books[b].chapters[c - 1]))
  {
    assert WalkBackward(bible, b, c, 1) == Some((b, c - 1));
    PathAtPos(bible, b, c - 1);
  }

  lemma StepBackwardAcross(bible: Bible, b: nat)
    requires IsPos(bible, b, 0) && b > 0
    ensures PathAt(bible, WalkBackward(bible, b, 0, 1)) == PathOf(Last(bible.books[b - 1].chapters))
  {
    if |bible.books[b - 1].chapters| > 0 {
      assert WalkBackward(bible, b, 0, 1) == Some((b - 1, |bible.books[b - 1].chapters| - 1));
      PathAtPos(bible, b - 1, |bible.books[b - 1].chapters| - 1);
    } else {
      assert WalkBackward(bible, b, 0, 1) == Some((b - 1, 0));
      PathAtPos(bible, b - 1, 0);
    }
  }

  lemma PathAtPos(bible: Bible, b: nat, c: nat)
    ensures PathAt(bible, Some((b, c))) == if IsPos(bible, b, c) then Some(ToPath(bible.books[b].chapters[c])) else None
  {
  }

  /** A forward walk that would pass the last chapter of the last book gives nothing. */
  lemma NthNextPastEnd(bible: Bible, b: nat, c: nat, n: nat)
    requires UniqueKeys(bible) && IsPos(bible, b, c)
    requires b == |bible.books| - 1 && n > |bible.books[b].chapters| - 1 - c
    ensures NthNextChapterPath(bible, bible.books[b].chapters[c], n) == None
  {
    LocateOwnPosition(bible, b, c);
    WalkForwardLastBook(bible, c, n);
  }

  lemma {:induction false} WalkForwardLastBook(bible: Bible, c: nat, n: nat)
    requires |bible.books| > 0 && c < |bible.books[|bible.books| - 1].chapters|
    requires n > |bible.books[|bible.books| - 1].chapters| - 1 - c
    ensures WalkForward(bible, |bible.books| - 1, c, n) == None
    decreases n
  {
    var b := |bible.books| - 1;
    if c + 1 < |bible.books[b].chapters| {
      WalkForwardLastBook(bible, c + 1, n - 1);
    }
  }

  /** A backward walk longer than the distance to the first chapter of the first
      book gives nothing. */
  lemma NthPreviousPastStart(bible: Bible, c: nat, n: nat)
    requires UniqueKeys(bible) && IsPos(bible, 0, c) && n > c
    ensures NthPreviousChapterPath(bible, bible.books[0].chapters[c], n) == None
  {
    LocateOwnPosition(bible, 0, c);
    WalkBackwardFirstBook(bible, c, n);
  }

  lemma {:induction false} WalkBackwardFirstBook(bible: Bible, c: nat, n: nat)
    requires n > c
    ensures WalkBackward(bible, 0, c, n) == None
    decreases n
  {
    if c > 0 {
      WalkBackwardFirstBook(bible, c - 1, n - 1);
    }
  }

  // ---------------------------------------------------------------------------
  // Lookup by URL parameters

  /** `Bible::get_chapter`: the percent-decoded book name is matched against the
      book names case-insensitively, then the chapter by number. */
  function GetChapter(bible: Bible, book: string, chapter: nat, decode: string -> Option<string>)
    : (r: Result<Chapter, ParamParseError>)
    ensures decode(book).None? ==> r == Err(BookNotFound)
    ensures r.Ok? ==> r.value.chapter == chapter
    ensures r.Ok? ==> exists b :: 0 <= b < |bible.books| && r.value in bible.books[b].chapters
                                && ToLower(bible.books[b].name) == ToLower(decode(book).value)
  {
    match decode(book)
    case None => Err(BookNotFound)
    case Some(name) =>
      match FindBook(bible.books, ToLower(name))
      case None => Err(BookNotFound)
      case Some(b) =>
        match FindChapter(bible.books[b].chapters, chapter)
        case None => Err(ChapterNotFound)
        case Some(c) => Ok(bible.books[b].chapters[c])
  }

  function FindBook(books: seq<Book>, lowerName: string): (r: Option<nat>)
    ensures r.Some? ==> r.value < |books| && ToLower(books[r.value].name) == lowerName
    ensures r.Some? ==> forall k :: 0 <= k < r.value ==> ToLower(books[k].name) != lowerName
    ensures r.None? ==> forall k :: 0 <= k < |books| ==> ToLower(books[k].name) != lowerName
  {
    if |books| == 0 then None
    else if ToLower(books[0].name) == lowerName then Some(0)
    else match FindBook(books[1..], lowerName)
      case None => None
      case Some(k) => Some(k + 1)
  }

  function FindChapter(chs: seq<Chapter>, number: nat): (r: Option<nat>)
    ensures r.Some? ==> r.value < |chs| && chs[r.value].chapter == number
    ensures r.Some? ==> forall k :: 0 <= k < r.value ==> chs[k].chapter != number
    ensures r.None? ==> forall k :: 0 <= k < |chs| ==> chs[k].chapter != number
  {
    if |chs| == 0 then None
    else if chs[0].chapter == number then Some(0)
    else match FindChapter(chs[1..], number)
      case None => None
      case Some(k) => Some(k + 1)
  }

  /** Every chapter is reachable through its encoded book name and its number,
      when book names differ case-insensitively and chapter numbers within a
      book differ. */
  lemma GetChapterFindsEveryChapter(bible: Bible, b: nat, c: nat, decode: string -> Option<string>)
    requires InvertsEncode(decode) && IsPos(bible, b, c)
    requires forall k :: 0 <= k < |bible.books| && k != b ==> ToLower(bible.books[k].name) != ToLower(bible.books[b].name)
    requires forall k :: 0 <= k < |bible.books[b].chapters| && k != c ==>
      bible.books[b].chapters[k].chapter != bible.books[b].chapters[c].chapter
    ensures GetChapter(bible, Encode(bible.books[b].name), bible.books[b].chapters[c].chapter, decode)
         == Ok(bible.books[b].chapters[c])
  {
    assert decode(Encode(bible.books[b].name)) == Some(bible.books[b].name);
  }

  // ---------------------------------------------------------------------------
  // Name translation

  /** The lookup key of a book name: lower-cased, spaces replaced by `'_'`. */
  function BookKey(name: string): string {
    ReplaceChar(ToLower(name), ' ', '_')
  }

  function RenameChapter(ch: Chapter, bookName: string): (r: Chapter)
    ensures r.chapter == ch.chapter && |r.verses| == |ch.verses|
    ensures r.name == bookName + " " + NatToString(ch.chapter)
    ensures forall i :: 0 <= i < |r.verses| ==>
      r.verses[i] == ch.verses[i].(name := r.name)
  {
    var n := bookName + " " + NatToString(ch.chapter);
    Chapter(ch.chapter, n, seq(|ch.verses|, i requires 0 <= i < |ch.verses| => ch.verses[i].(name := n)))
  }

  function TranslateBook(book: Book, getBook: string -> Option<string>): Book {
    var name := match getBook(BookKey(book.name)) case Some(t) => t case None => book.name;
    Book(name, seq(|book.chapters|, i requires 0 <= i < |book.chapters| => RenameChapter(book.chapters[i], name)))
  }

  /** `Bible::translate_names`, with the translation's `get_book` as `getBook`. */
  function TranslateNames(bible: Bible, getBook: string -> Option<string>): (r: Bible)
    ensures |r.books| == |bible.books|
    ensures forall b :: 0 <= b < |r.books| ==>
      r.books[b].name == (match getBook(BookKey(bible.books[b].name)) case Some(t) => t case None => bible.books[b].name)
      && |r.books[b].chapters| == |bible.books[b].chapters|
    ensures forall b, c :: 0 <= b < |r.books| && 0 <= c < |r.books[b].chapters| ==>
      var ch := r.books[b].chapters[c];
      var old_ch := bible.books[b].chapters[c];
      ch.chapter == old_ch.chapter && ch.name == r.books[b].name + " " + NatToString(ch.chapter)
      && |ch.verses| == |old_ch.verses|
      && forall v :: 0 <= v < |ch.verses| ==>
        ch.verses[v].name == ch.name && ch.verses[v].text == old_ch.verses[v].text
        && ch.verses[v].verse == old_ch.verses[v].verse
  {
    Bible(seq(|bible.books|, i requires 0 <= i < |bible.books| => TranslateBook(bible.books[i], getBook)))
  }

  /** After translation a chapter's path is the encoded translated book name, when
      that name is words separated by single spaces. */
  lemma TranslatedChapterPath(bible: Bible, getBook: string -> Option<string>, b: nat, c: nat, words: seq<string>)
    requires IsPos(bible, b, c) && |words| > 0
    requires forall i :: 0 <= i < |words| ==> IsWord(words[i])
    requires TranslateNames(bible, getBook).books[b].name == Join(words, " ")
    ensures ToPath(TranslateNames(bible, getBook).books[b].chapters[c])
         == "/" + Encode(Join(words, " ")) + "/" + NatToString(bible.books[b].chapters[c].chapter)
  {
    var ch := TranslateNames(bible, getBook).books[b].chapters[c];
    var num := NatToString(ch.chapter);
    NatToStringNoWhitespace(ch.chapter);
    JoinAppend(words, num, " ");
    PathBookDropsLastWord(words, num);
  }
}
