/** The completeness check of a v1 translation (rust/peter/src/translation/v1/check.rs):
    every book, chapter and verse is visited in key order, and each problem
    found is added to a list of errors or warnings, with running statistics.
    Errors and warnings are kept as structured values rather than their
    message text, and a book is named by its key in `Books`. */
module PeterCheck {
  import opened Wrappers
  import opened SortedMaps
  import opened PeterVerse
  import opened PeterStorage
  import C = PeterConversion

  datatype ValidationError =
    | MissingVerse(book: int, chapter: int, id: VerseNumber)
    | VerseGap(book: int, chapter: int, missing: seq<int>)
    | MissingChapter(book: int, chapter: int)
    | ChapterGap(book: int, missing: seq<int>)
    | EmptyChapter(book: int, chapter: int)
    | EmptyBook(book: int)
    | DuplicateVerse(book: int, chapter: int, verse: nat)
    | InvalidVerseRange(book: int, chapter: int, start: nat, end: nat)
    | OverlappingRanges(book: int, chapter: int, range1: (nat, nat), range2: (nat, nat))
    | RemoteStorage
    | MultipleErrors(count: nat, errors: seq<ValidationError>)

  /** The two warnings: a book whose first chapter is not 1, a chapter whose
      first verse is not 1. */
  datatype Warning = ChapterStart(book: int, first: int) | VerseStart(book: int, chapter: int, first: int)

  datatype Statistics = Statistics(totalBooks: nat, totalChapters: nat, totalVerses: nat,
                                   booksWithErrors: nat, chaptersWithErrors: nat)

  datatype ValidationResult = ValidationResult(errors: seq<ValidationError>, warnings: seq<Warning>,
                                               statistics: Statistics)

  /** `is_valid`. */
  predicate IsValid(r: ValidationResult) {
    |r.errors| == 0
  }

  /** `to_error`: nothing, the one error, or all of them wrapped with their
      count. */
  function ToError(r: ValidationResult): (e: Result<(), ValidationError>)
    ensures e.Ok? <==> IsValid(r)
    ensures |r.errors| == 1 ==> e == Err(r.errors[0])
    ensures |r.errors| > 1 ==> e == Err(MultipleErrors(|r.errors|, r.errors))
  {
    if |r.errors| == 0 then Ok(())
    else if |r.errors| == 1 then Err(r.errors[0])
    else Err(MultipleErrors(|r.errors|, r.errors))
  }

  /** A wrapped list always holds at least two errors and counts them right,
      and every error reported is one of the list's. */
  lemma ToErrorReports(r: ValidationResult)
    requires !IsValid(r)
    ensures ToError(r).error in r.errors
            || (ToError(r).error.MultipleErrors? && ToError(r).error.count == |ToError(r).error.errors| >= 2
                && ToError(r).error.errors == r.errors)
  {
  }

  // ---------------------------------------------------------------------------
  // Helpers on numbers

  /** `ranges_overlap`. */
  predicate RangesOverlap(start1: nat, end1: nat, start2: nat, end2: nat) {
    !(end1 < start2 || end2 < start1)
  }

  predicate InRange(p: int, lo: int, hi: int) {
    lo <= p <= hi
  }

  /** For proper ranges, overlapping means sharing a verse, and the test does
      not depend on the order of its arguments. */
  lemma RangesOverlapShared(start1: nat, end1: nat, start2: nat, end2: nat)
    requires start1 <= end1 && start2 <= end2
    ensures RangesOverlap(start1, end1, start2, end2) <==>
              exists p :: InRange(p, start1, end1) && InRange(p, start2, end2)
    ensures RangesOverlap(start1, end1, start2, end2) == RangesOverlap(start2, end2, start1, end1)
  {
    if RangesOverlap(start1, end1, start2, end2) {
      var p := if start1 < start2 then start2 else start1;
      assert InRange(p, start1, end1) && InRange(p, start2, end2);
    }
  }

  /** `start..=end` as a list. */
  function Span(a: nat, b: nat): (r: seq<nat>)
    ensures |r| == (if a <= b then b - a + 1 else 0)
    decreases b + 1 - a
  {
    if a > b then [] else [a] + Span(a + 1, b)
  }

  /** `start..=end` holds exactly the numbers between its ends. */
  lemma {:induction false} SpanMembers(a: nat, b: nat, k: int)
    ensures k in Span(a, b) <==> InRange(k, a, b)
    decreases b + 1 - a
  {
    if a <= b {
      SpanMembers(a + 1, b, k);
    }
  }

  /** The numbers of `lo..=hi` that are not present, ascending: the set
      difference of the source after `sort_unstable`. */
  function Missing(lo: int, hi: int, present: set<int>): (r: seq<int>)
    ensures forall i :: 0 <= i < |r| ==> lo <= r[i] <= hi && r[i] !in present
    ensures forall i, j :: 0 <= i < j < |r| ==> r[i] < r[j]
    ensures forall k :: lo <= k <= hi && k !in present ==> k in r
    decreases hi - lo
  {
    if lo > hi then []
    else (if lo in present then [] else [lo]) + Missing(lo + 1, hi, present)
  }

  /** The smallest element; the source takes the first after sorting. */
  function Least(s: seq<nat>): (r: nat)
    requires |s| > 0
    ensures r in s && forall x :: x in s ==> r <= x
  {
    if |s| == 1 then s[0]
    else
      var m := Least(s[1..]);
      assert forall x :: x in s ==> x == s[0] || x in s[1..];
      if s[0] <= m then s[0] else m
  }

  /** The largest element; the source takes the last after sorting. */
  function Greatest(s: seq<nat>): (r: nat)
    requires |s| > 0
    ensures r in s && forall x :: x in s ==> x <= r
  {
    if |s| == 1 then s[0]
    else
      var m := Greatest(s[1..]);
      assert forall x :: x in s ==> x == s[0] || x in s[1..];
      if s[0] >= m then s[0] else m
  }

  // ---------------------------------------------------------------------------
  // Verses of one chapter

  /** What the verse loop has collected so far: the numbers seen (as a set
      and in order), the proper ranges and the errors. */
  datatype Scan = Scan(seen: set<nat>, nums: seq<nat>, ranges: seq<(nat, nat)>, errors: seq<ValidationError>)

  const Start := Scan({}, [], [], [])

  /** One verse number: a duplicate is reported, then it is recorded. */
  function AddNumber(book: int, chapter: int, s: Scan, n: nat): (r: Scan)
    ensures r.nums == s.nums + [n] && r.seen == s.seen + {n} && r.ranges == s.ranges
  {
    var errors := if n in s.seen then s.errors + [DuplicateVerse(book, chapter, n)] else s.errors;
    Scan(s.seen + {n}, s.nums + [n], s.ranges, errors)
  }

  /** The numbers in order, as the loop over a range does. */
  function AddNumbers(book: int, chapter: int, s: Scan, ns: seq<nat>): (r: Scan)
    ensures r.nums == s.nums + ns && r.ranges == s.ranges
    decreases |ns|
  {
    if |ns| == 0 then s
    else
      var r := AddNumbers(book, chapter, AddNumber(book, chapter, s, ns[0]), ns[1..]);
      assert s.nums + [ns[0]] + ns[1..] == s.nums + ns;
      r
  }

  /** One error per earlier proper range that overlaps `a..=b`, in order. */
  function Overlaps(book: int, chapter: int, existing: seq<(nat, nat)>, a: nat, b: nat): (r: seq<ValidationError>)
    ensures forall e :: e in r ==> e.OverlappingRanges? && e.book == book && e.chapter == chapter
  {
    if |existing| == 0 then []
    else
      (if RangesOverlap(a, b, existing[0].0, existing[0].1)
       then [OverlappingRanges(book, chapter, existing[0], (a, b))] else [])
      + Overlaps(book, chapter, existing[1..], a, b)
  }

  /** The verse numbers a verse contributes: itself, or every number of a
      proper range; an inverted range contributes none. */
  function NumbersOf(v: Verse): seq<nat> {
    match v.number
    case Single(n) => [n]
    case Range(a, b) => if a > b then [] else Span(a, b)
  }

  function Numbers(verses: seq<Verse>): seq<nat> {
    if |verses| == 0 then [] else NumbersOf(verses[0]) + Numbers(verses[1..])
  }

  /** One pass of the verse loop. */
  function ScanVerse(book: int, chapter: int, s: Scan, v: Verse): (r: Scan)
    ensures r.nums == s.nums + NumbersOf(v)
  {
    match v.number
    case Single(n) => AddNumber(book, chapter, s, n)
    case Range(a, b) =>
      if a > b then s.(errors := s.errors + [InvalidVerseRange(book, chapter, a, b)])
      else
        AddNumbers(book, chapter, CheckedRange(book, chapter, s, a, b), Span(a, b))
  }

  /** The verse loop over the rest of the verses. */
  function ScanFrom(book: int, chapter: int, s: Scan, verses: seq<Verse>): (r: Scan)
    ensures r.nums == s.nums + Numbers(verses)
    decreases |verses|
  {
    if |verses| == 0 then s
    else
      var t := ScanVerse(book, chapter, s, verses[0]);
      var a, b := NumbersOf(verses[0]), Numbers(verses[1..]);
      assert s.nums + a + b == s.nums + (a + b);
      ScanFrom(book, chapter, t, verses[1..])
  }

  /** What validating part of a translation adds: its errors, its warnings
      and how many chapter and verse entries it visited. */
  datatype Report = Report(errors: seq<ValidationError>, warnings: seq<Warning>, chapters: nat, verses: nat)

  /** `validate_chapter_verses`: the verse loop, then a warning when the
      smallest number is not 1 and one `VerseGap` listing the numbers missing
      between the smallest and the largest. */
  function ValidateChapterVerses(book: int, chapter: int, verses: seq<Verse>): (r: Report)
    ensures r.verses == |verses| && r.chapters == 0
    ensures Numbers(verses) == [] ==> r.warnings == []
    ensures Numbers(verses) != [] ==>
              r.warnings == (if Least(Numbers(verses)) != 1 then [VerseStart(book, chapter, Least(Numbers(verses)))] else [])
  {
    var scan := ScanFrom(book, chapter, Start, verses);
    assert scan.nums == Numbers(verses) by { assert [] + Numbers(verses) == Numbers(verses); }
    if |scan.nums| == 0 then Report(scan.errors + GapErrors(book, chapter, scan.nums), [], 0, |verses|)
    else
      var lo := Least(scan.nums);
      var warnings := if lo != 1 then [VerseStart(book, chapter, lo)] else [];
      Report(scan.errors + GapErrors(book, chapter, scan.nums), warnings, 0, |verses|)
  }

  /** The `VerseGap` of a chapter whose verse loop recorded `nums`: none when
      nothing is missing between the smallest and the largest. */
  function GapErrors(book: int, chapter: int, nums: seq<nat>): (r: seq<ValidationError>)
    ensures |r| <= 1 && forall i :: 0 <= i < |r| ==> r[i].VerseGap?
    ensures nums == [] ==> r == []
  {
    if |nums| == 0 then []
    else
      var missing := Missing(Least(nums), Greatest(nums), set n | n in nums :: n as int);
      if |missing| == 0 then [] else [VerseGap(book, chapter, missing)]
  }

  // ---------------------------------------------------------------------------
  // What the verse loop reports

  /** The errors the verse loop itself can add. */
  predicate ScanError(book: int, chapter: int, e: ValidationError) {
    (e.DuplicateVerse? || e.InvalidVerseRange? || e.OverlappingRanges?) && e.book == book && e.chapter == chapter
  }

  /** `after` is `before` with errors of the verse loop appended. */
  predicate Appends(book: int, chapter: int, before: seq<ValidationError>, after: seq<ValidationError>) {
    |before| <= |after| && after[..|before|] == before
    && forall i :: |before| <= i < |after| ==> ScanError(book, chapter, after[i])
  }

  /** What the verse loop keeps true: `seen` holds exactly the recorded
      numbers, and a number has a `DuplicateVerse` exactly when it was
      recorded at least twice. */
  ghost predicate Consistent(book: int, chapter: int, s: Scan) {
    (forall n :: n in s.seen <==> n in s.nums)
    && (forall n :: DuplicateVerse(book, chapter, n) in s.errors <==> multiset(s.nums)[n] >= 2)
  }

  lemma AppendsTrans(book: int, chapter: int, a: seq<ValidationError>, b: seq<ValidationError>, c: seq<ValidationError>)
    requires Appends(book, chapter, a, b) && Appends(book, chapter, b, c)
    ensures Appends(book, chapter, a, c)
  {
    assert c[..|a|] == c[..|b|][..|a|];
    forall i | |a| <= i < |c| ensures ScanError(book, chapter, c[i]) {
      if i < |b| {
        assert c[i] == c[..|b|][i];
      }
    }
  }

  /** Recording numbers adds nothing but `DuplicateVerse` errors. */
  predicate DuplicatesOnly(book: int, chapter: int, before: seq<ValidationError>, after: seq<ValidationError>) {
    |before| <= |after| && after[..|before|] == before
    && forall i :: |before| <= i < |after| ==> after[i].DuplicateVerse? && after[i].book == book && after[i].chapter == chapter
  }

  lemma {:induction false} AddNumbersDuplicates(book: int, chapter: int, s: Scan, ns: seq<nat>)
    ensures DuplicatesOnly(book, chapter, s.errors, AddNumbers(book, chapter, s, ns).errors)
    decreases |ns|
  {
    if |ns| > 0 {
      var t := AddNumber(book, chapter, s, ns[0]);
      AddNumbersDuplicates(book, chapter, t, ns[1..]);
      var r := AddNumbers(book, chapter, t, ns[1..]);
      assert r.errors[..|s.errors|] == r.errors[..|t.errors|][..|s.errors|];
      forall i | |s.errors| <= i < |r.errors| ensures r.errors[i].DuplicateVerse? && r.errors[i].book == book && r.errors[i].chapter == chapter {
        if i < |t.errors| {
          assert r.errors[i] == t.errors[i];
        }
      }
    }
  }

  lemma AddNumberConsistent(book: int, chapter: int, s: Scan, n: nat)
    requires Consistent(book, chapter, s)
    ensures Consistent(book, chapter, AddNumber(book, chapter, s, n))
  {
    var r := AddNumber(book, chapter, s, n);
    assert multiset(r.nums) == multiset(s.nums) + multiset{n};
    forall m ensures DuplicateVerse(book, chapter, m) in r.errors <==> multiset(r.nums)[m] >= 2 {
      if m == n && n !in s.seen {
        assert multiset(s.nums)[n] == 0;
      }
    }
  }

  lemma {:induction false} AddNumbersConsistent(book: int, chapter: int, s: Scan, ns: seq<nat>)
    requires Consistent(book, chapter, s)
    ensures Consistent(book, chapter, AddNumbers(book, chapter, s, ns))
    decreases |ns|
  {
    if |ns| > 0 {
      AddNumberConsistent(book, chapter, s, ns[0]);
      AddNumbersConsistent(book, chapter, AddNumber(book, chapter, s, ns[0]), ns[1..]);
    }
  }

  /** The proper-range branch of the loop: the overlap errors, then the
      numbers. */
  function CheckedRange(book: int, chapter: int, s: Scan, a: nat, b: nat): (r: Scan)
    ensures r.nums == s.nums && r.seen == s.seen
    ensures |r.errors| >= |s.errors| && r.errors[..|s.errors|] == s.errors
    ensures forall i :: |s.errors| <= i < |r.errors| ==> r.errors[i].OverlappingRanges? && r.errors[i].book == book && r.errors[i].chapter == chapter
  {
    var overlaps := Overlaps(book, chapter, s.ranges, a, b);
    var r := s.(errors := s.errors + overlaps, ranges := s.ranges + [(a, b)]);
    assert forall i :: |s.errors| <= i < |r.errors| ==> r.errors[i] == overlaps[i - |s.errors|];
    r
  }

  lemma ScanVerseAppends(book: int, chapter: int, s: Scan, v: Verse)
    ensures Appends(book, chapter, s.errors, ScanVerse(book, chapter, s, v).errors)
    ensures !Inverted(v) ==>
              var r := ScanVerse(book, chapter, s, v);
              forall i :: |s.errors| <= i < |r.errors| ==> !r.errors[i].InvalidVerseRange?
  {
    match v.number
    case Single(n) =>
      AddNumbersDuplicates(book, chapter, s, [n]);
      assert AddNumbers(book, chapter, s, [n]) == AddNumbers(book, chapter, AddNumber(book, chapter, s, n), []);
    case Range(a, b) =>
      if a <= b {
        var checked := CheckedRange(book, chapter, s, a, b);
        assert ScanVerse(book, chapter, s, v) == AddNumbers(book, chapter, checked, Span(a, b));
        AddNumbersDuplicates(book, chapter, checked, Span(a, b));
        var r := AddNumbers(book, chapter, checked, Span(a, b));
        assert r.errors[..|s.errors|] == r.errors[..|checked.errors|][..|s.errors|];
        forall i | |s.errors| <= i < |r.errors| ensures ScanError(book, chapter, r.errors[i]) && !r.errors[i].InvalidVerseRange? {
          if i < |checked.errors| {
            assert r.errors[i] == checked.errors[i];
          }
        }
      }
  }

  predicate Inverted(v: Verse) {
    v.number.Range? && v.number.first > v.number.last
  }

  lemma ScanVerseInvalid(book: int, chapter: int, s: Scan, v: Verse, a: nat, e: nat)
    ensures InvalidVerseRange(book, chapter, a, e) in ScanVerse(book, chapter, s, v).errors
            <==> InvalidVerseRange(book, chapter, a, e) in s.errors || (v.number == Range(a, e) && a > e)
  {
    ScanVerseAppends(book, chapter, s, v);
    var r := ScanVerse(book, chapter, s, v).errors;
    var extra := r[|s.errors|..];
    assert r == s.errors + extra;
    if Inverted(v) {
      assert extra == [InvalidVerseRange(book, chapter, v.number.first, v.number.last)];
    } else {
      assert forall i :: 0 <= i < |extra| ==> !extra[i].InvalidVerseRange?;
    }
  }

  lemma CheckedRangeConsistent(book: int, chapter: int, s: Scan, a: nat, b: nat)
    requires Consistent(book, chapter, s)
    ensures Consistent(book, chapter, CheckedRange(book, chapter, s, a, b))
  {
    var checked := CheckedRange(book, chapter, s, a, b);
    forall m ensures DuplicateVerse(book, chapter, m) in checked.errors <==> DuplicateVerse(book, chapter, m) in s.errors {
      if DuplicateVerse(book, chapter, m) in checked.errors {
        var i :| 0 <= i < |checked.errors| && checked.errors[i] == DuplicateVerse(book, chapter, m);
        assert s.errors[i] == checked.errors[i];
      }
    }
  }

  lemma ScanVerseConsistent(book: int, chapter: int, s: Scan, v: Verse)
    requires Consistent(book, chapter, s)
    ensures Consistent(book, chapter, ScanVerse(book, chapter, s, v))
  {
    match v.number
    case Single(n) =>
      AddNumberConsistent(book, chapter, s, n);
    case Range(a, b) =>
      if a <= b {
        CheckedRangeConsistent(book, chapter, s, a, b);
        AddNumbersConsistent(book, chapter, CheckedRange(book, chapter, s, a, b), Span(a, b));
      }
  }

  lemma {:induction false} ScanFromAppends(book: int, chapter: int, s: Scan, verses: seq<Verse>)
    ensures Appends(book, chapter, s.errors, ScanFrom(book, chapter, s, verses).errors)
    decreases |verses|
  {
    if |verses| > 0 {
      var t := ScanVerse(book, chapter, s, verses[0]);
      ScanVerseAppends(book, chapter, s, verses[0]);
      ScanFromAppends(book, chapter, t, verses[1..]);
      AppendsTrans(book, chapter, s.errors, t.errors, ScanFrom(book, chapter, t, verses[1..]).errors);
    }
  }

  lemma {:induction false} ScanFromConsistent(book: int, chapter: int, s: Scan, verses: seq<Verse>)
    requires Consistent(book, chapter, s)
    ensures Consistent(book, chapter, ScanFrom(book, chapter, s, verses))
    decreases |verses|
  {
    if |verses| > 0 {
      ScanVerseConsistent(book, chapter, s, verses[0]);
      ScanFromConsistent(book, chapter, ScanVerse(book, chapter, s, verses[0]), verses[1..]);
    }
  }

  /** An inverted range is reported exactly where one occurs. */
  lemma {:induction false} ScanFromInvalid(book: int, chapter: int, s: Scan, verses: seq<Verse>, a: nat, e: nat)
    ensures InvalidVerseRange(book, chapter, a, e) in ScanFrom(book, chapter, s, verses).errors
            <==> InvalidVerseRange(book, chapter, a, e) in s.errors
                 || exists i :: 0 <= i < |verses| && verses[i].number == Range(a, e) && a > e
    decreases |verses|
  {
    if |verses| > 0 {
      var t := ScanVerse(book, chapter, s, verses[0]);
      ScanVerseInvalid(book, chapter, s, verses[0], a, e);
      ScanFromInvalid(book, chapter, t, verses[1..], a, e);
      if i :| 0 <= i < |verses[1..]| && verses[1..][i].number == Range(a, e) && a > e {
        assert verses[i + 1] == verses[1..][i];
      }
      if i :| 0 <= i < |verses| && verses[i].number == Range(a, e) && a > e {
        if i > 0 {
          assert verses[1..][i - 1] == verses[i];
        }
      }
    }
  }

  /** Every overlap error names an earlier range that overlaps `a..=b`, and
      every such range has one. */
  lemma {:induction false} OverlapsFound(book: int, chapter: int, existing: seq<(nat, nat)>, a: nat, b: nat, x: (nat, nat))
    ensures OverlappingRanges(book, chapter, x, (a, b)) in Overlaps(book, chapter, existing, a, b)
            <==> x in existing && RangesOverlap(a, b, x.0, x.1)
    decreases |existing|
  {
    if |existing| > 0 {
      OverlapsFound(book, chapter, existing[1..], a, b, x);
      assert x in existing <==> x == existing[0] || x in existing[1..];
    }
  }

  lemma {:induction false} OverlapsSound(book: int, chapter: int, existing: seq<(nat, nat)>, a: nat, b: nat, e: ValidationError)
    requires e in Overlaps(book, chapter, existing, a, b)
    ensures e.OverlappingRanges? && e.range2 == (a, b) && e.range1 in existing
    ensures RangesOverlap(a, b, e.range1.0, e.range1.1)
    decreases |existing|
  {
    var head := if RangesOverlap(a, b, existing[0].0, existing[0].1)
                then [OverlappingRanges(book, chapter, existing[0], (a, b))] else [];
    if e !in head {
      OverlapsSound(book, chapter, existing[1..], a, b, e);
    }
  }

  /** Some number was recorded twice. */
  ghost predicate Repeats(nums: seq<nat>) {
    exists n :: multiset(nums)[n] >= 2
  }

  /** What the loop keeps true about ranges: each recorded range is proper
      and its numbers were recorded, and an overlap error is only ever
      reported when some number was recorded twice. */
  ghost predicate RangesRecorded(book: int, chapter: int, s: Scan) {
    (forall x :: x in s.ranges ==> x.0 <= x.1)
    && (forall x, p :: x in s.ranges && InRange(p, x.0, x.1) ==> p in s.nums)
    && ((exists i :: 0 <= i < |s.errors| && s.errors[i].OverlappingRanges?) ==> Repeats(s.nums))
  }

  lemma RepeatsGrow(nums: seq<nat>, more: seq<nat>)
    requires Repeats(nums)
    ensures Repeats(nums + more)
  {
    var n :| multiset(nums)[n] >= 2;
    assert multiset(nums + more)[n] >= 2;
  }

  lemma AddNumbersRecorded(book: int, chapter: int, s: Scan, ns: seq<nat>)
    requires RangesRecorded(book, chapter, s)
    ensures RangesRecorded(book, chapter, AddNumbers(book, chapter, s, ns))
  {
    var r := AddNumbers(book, chapter, s, ns);
    AddNumbersDuplicates(book, chapter, s, ns);
    if exists i :: 0 <= i < |r.errors| && r.errors[i].OverlappingRanges? {
      var i :| 0 <= i < |r.errors| && r.errors[i].OverlappingRanges?;
      assert r.errors[i] == s.errors[i];
      RepeatsGrow(s.nums, ns);
    }
  }

  /** A new proper range that overlaps an earlier one shares a number with
      it, and that number is then recorded twice. */
  lemma OverlapRepeats(book: int, chapter: int, s: Scan, a: nat, b: nat, e: ValidationError)
    requires RangesRecorded(book, chapter, s) && a <= b
    requires e in Overlaps(book, chapter, s.ranges, a, b)
    ensures Repeats(s.nums + Span(a, b))
  {
    OverlapsSound(book, chapter, s.ranges, a, b, e);
    var x := e.range1;
    RangesOverlapShared(a, b, x.0, x.1);
    var p :| InRange(p, a, b) && InRange(p, x.0, x.1);
    SpanMembers(a, b, p);
    assert p in s.nums;
    assert multiset(s.nums)[p] >= 1 && multiset(Span(a, b))[p] >= 1;
    assert multiset(s.nums + Span(a, b))[p] >= 2;
  }

  /** The overlap part of the invariant across a proper range. */
  lemma ProperRangeOverlaps(book: int, chapter: int, s: Scan, a: nat, b: nat)
    requires RangesRecorded(book, chapter, s) && a <= b
    ensures var r := AddNumbers(book, chapter, CheckedRange(book, chapter, s, a, b), Span(a, b));
            (exists i :: 0 <= i < |r.errors| && r.errors[i].OverlappingRanges?) ==> Repeats(r.nums)
  {
    var checked := CheckedRange(book, chapter, s, a, b);
    var r := AddNumbers(book, chapter, checked, Span(a, b));
    AddNumbersDuplicates(book, chapter, checked, Span(a, b));
    if exists i :: 0 <= i < |r.errors| && r.errors[i].OverlappingRanges? {
      var i :| 0 <= i < |r.errors| && r.errors[i].OverlappingRanges?;
      assert r.errors[i] == checked.errors[i];
      if i < |s.errors| {
        assert s.errors[i] == checked.errors[i];
        RepeatsGrow(s.nums, Span(a, b));
      } else {
        var overlaps := Overlaps(book, chapter, s.ranges, a, b);
        assert checked.errors == s.errors + overlaps;
        OverlapRepeats(book, chapter, s, a, b, overlaps[i - |s.errors|]);
      }
    }
  }

  /** The range part of the invariant across a proper range. */
  lemma ProperRangeRecorded(book: int, chapter: int, s: Scan, a: nat, b: nat)
    requires RangesRecorded(book, chapter, s) && a <= b
    ensures RangesRecorded(book, chapter, AddNumbers(book, chapter, CheckedRange(book, chapter, s, a, b), Span(a, b)))
  {
    var r := AddNumbers(book, chapter, CheckedRange(book, chapter, s, a, b), Span(a, b));
    assert r.ranges == s.ranges + [(a, b)];
    forall x, p | x in r.ranges && InRange(p, x.0, x.1) ensures p in r.nums {
      if x == (a, b) {
        SpanMembers(a, b, p);
      }
    }
    ProperRangeOverlaps(book, chapter, s, a, b);
  }

  lemma ScanVerseRecorded(book: int, chapter: int, s: Scan, v: Verse)
    requires RangesRecorded(book, chapter, s)
    ensures RangesRecorded(book, chapter, ScanVerse(book, chapter, s, v))
  {
    match v.number
    case Single(n) =>
      AddNumbersRecorded(book, chapter, s, [n]);
      assert AddNumbers(book, chapter, s, [n]) == AddNumbers(book, chapter, AddNumber(book, chapter, s, n), []);
    case Range(a, b) =>
      if a > b {
        var r := ScanVerse(book, chapter, s, v);
        if exists i :: 0 <= i < |r.errors| && r.errors[i].OverlappingRanges? {
          var i :| 0 <= i < |r.errors| && r.errors[i].OverlappingRanges?;
          assert i < |s.errors|;
        }
      } else {
        ProperRangeRecorded(book, chapter, s, a, b);
      }
  }

  lemma {:induction false} ScanFromRecorded(book: int, chapter: int, s: Scan, verses: seq<Verse>)
    requires RangesRecorded(book, chapter, s)
    ensures RangesRecorded(book, chapter, ScanFrom(book, chapter, s, verses))
    decreases |verses|
  {
    if |verses| > 0 {
      ScanVerseRecorded(book, chapter, s, verses[0]);
      ScanFromRecorded(book, chapter, ScanVerse(book, chapter, s, verses[0]), verses[1..]);
    }
  }

  /** After the verse loop the chapter adds at most its gap error. */
  lemma ChapterVerseSplit(book: int, chapter: int, verses: seq<Verse>)
    ensures var scan := ScanFrom(book, chapter, Start, verses);
            ValidateChapterVerses(book, chapter, verses).errors == scan.errors + GapErrors(book, chapter, scan.nums)
  {
  }

  /** The verse errors of a chapter: a number recorded twice (alone or
      inside a range) has a `DuplicateVerse`. */
  lemma ChapterVerseDuplicates(book: int, chapter: int, verses: seq<Verse>, n: nat)
    ensures DuplicateVerse(book, chapter, n) in ValidateChapterVerses(book, chapter, verses).errors
            <==> multiset(Numbers(verses))[n] >= 2
  {
    var scan := ScanFrom(book, chapter, Start, verses);
    var gap := GapErrors(book, chapter, scan.nums);
    ChapterVerseSplit(book, chapter, verses);
    ScanFromConsistent(book, chapter, Start, verses);
    assert scan.nums == Numbers(verses) by { assert [] + Numbers(verses) == Numbers(verses); }
    assert DuplicateVerse(book, chapter, n) !in gap;
  }

  /** An inverted range has an `InvalidVerseRange` (and adds no numbers). */
  lemma ChapterVerseInvalid(book: int, chapter: int, verses: seq<Verse>, a: nat, e: nat)
    ensures InvalidVerseRange(book, chapter, a, e) in ValidateChapterVerses(book, chapter, verses).errors
            <==> exists i :: 0 <= i < |verses| && verses[i].number == Range(a, e) && a > e
  {
    var scan := ScanFrom(book, chapter, Start, verses);
    var gap := GapErrors(book, chapter, scan.nums);
    ChapterVerseSplit(book, chapter, verses);
    ScanFromInvalid(book, chapter, Start, verses, a, e);
    assert InvalidVerseRange(book, chapter, a, e) !in gap;
  }

  /** The gap error: present exactly when some number between the smallest
      and the largest is missing, and then listing the missing ones. */
  lemma ChapterVerseGap(book: int, chapter: int, verses: seq<Verse>, missing: seq<int>)
    requires Numbers(verses) != []
    ensures var ns := Numbers(verses);
            VerseGap(book, chapter, missing) in ValidateChapterVerses(book, chapter, verses).errors
            <==> missing == Missing(Least(ns), Greatest(ns), set n | n in ns :: n as int) && missing != []
  {
    var scan := ScanFrom(book, chapter, Start, verses);
    ScanFromAppends(book, chapter, Start, verses);
    assert scan.nums == Numbers(verses) by { assert [] + Numbers(verses) == Numbers(verses); }
    assert VerseGap(book, chapter, missing) !in scan.errors by {
      forall i | 0 <= i < |scan.errors| ensures scan.errors[i] != VerseGap(book, chapter, missing) {
        assert ScanError(book, chapter, scan.errors[i]);
      }
    }
  }

  /** No number between the smallest and the largest is missing. */
  ghost predicate NoGaps(ns: seq<nat>) {
    ns == [] || forall k :: Least(ns) <= k <= Greatest(ns) ==> k in ns
  }

  lemma FirstScanError(book: int, chapter: int, errors: seq<ValidationError>)
    requires forall i :: 0 <= i < |errors| ==> ScanError(book, chapter, errors[i])
    ensures errors != [] ==>
              errors[0] in errors
              && ((errors[0].DuplicateVerse? && errors[0] == DuplicateVerse(book, chapter, errors[0].verse))
                  || (errors[0].InvalidVerseRange? && errors[0] == InvalidVerseRange(book, chapter, errors[0].start, errors[0].end))
                  || errors[0].OverlappingRanges?)
  {
  }

  /** The gap error is absent exactly when nothing is missing. */
  lemma GapErrorsNone(book: int, chapter: int, ns: seq<nat>)
    ensures GapErrors(book, chapter, ns) == [] <==> NoGaps(ns)
  {
    if ns != [] {
      var present := set n | n in ns :: n as int;
      var missing := Missing(Least(ns), Greatest(ns), present);
      if missing == [] {
        forall k | Least(ns) <= k <= Greatest(ns) ensures k in ns {
          assert k in present;
        }
      } else {
        assert missing[0] !in present;
        assert missing[0] !in ns;
      }
    }
  }

  /** An error-free chapter records no number twice. */
  lemma CleanNoRepeats(book: int, chapter: int, verses: seq<Verse>, n: nat)
    requires ValidateChapterVerses(book, chapter, verses).errors == []
    ensures multiset(Numbers(verses))[n] <= 1
  {
    ChapterVerseDuplicates(book, chapter, verses, n);
  }

  /** An error-free chapter has no inverted range. */
  lemma CleanNoInverted(book: int, chapter: int, verses: seq<Verse>, i: nat)
    requires ValidateChapterVerses(book, chapter, verses).errors == []
    requires i < |verses|
    ensures !Inverted(verses[i])
  {
    var v := verses[i].number;
    if v.Range? {
      ChapterVerseInvalid(book, chapter, verses, v.first, v.last);
    }
  }

  /** An error-free chapter misses no number between its smallest and largest. */
  lemma CleanNoGaps(book: int, chapter: int, verses: seq<Verse>)
    requires ValidateChapterVerses(book, chapter, verses).errors == []
    ensures NoGaps(Numbers(verses))
  {
    var scan := ScanFrom(book, chapter, Start, verses);
    ChapterVerseSplit(book, chapter, verses);
    assert scan.nums == Numbers(verses) by { assert [] + Numbers(verses) == Numbers(verses); }
    GapErrorsNone(book, chapter, scan.nums);
  }

  /** A chapter with no repeated number, no inverted range and no gap is free
      of errors: an overlap of two ranges always comes with a repeat. */
  lemma ChapterVerseCleanIf(book: int, chapter: int, verses: seq<Verse>)
    requires forall n :: multiset(Numbers(verses))[n] <= 1
    requires forall i :: 0 <= i < |verses| ==> !Inverted(verses[i])
    requires NoGaps(Numbers(verses))
    ensures ValidateChapterVerses(book, chapter, verses).errors == []
  {
    var scan := ScanFrom(book, chapter, Start, verses);
    ChapterVerseSplit(book, chapter, verses);
    assert scan.nums == Numbers(verses) by { assert [] + Numbers(verses) == Numbers(verses); }
    GapErrorsNone(book, chapter, scan.nums);
    ScanFromAppends(book, chapter, Start, verses);
    ScanFromRecorded(book, chapter, Start, verses);
    ScanFromConsistent(book, chapter, Start, verses);
    FirstScanError(book, chapter, scan.errors);
    assert !Repeats(scan.nums);
    forall a, e ensures InvalidVerseRange(book, chapter, a, e) !in scan.errors {
      ScanFromInvalid(book, chapter, Start, verses, a, e);
    }
  }

  /** Both directions together. */
  lemma ChapterVerseClean(book: int, chapter: int, verses: seq<Verse>)
    ensures ValidateChapterVerses(book, chapter, verses).errors == []
            <==> (forall n :: multiset(Numbers(verses))[n] <= 1)
                 && (forall i :: 0 <= i < |verses| ==> !Inverted(verses[i]))
                 && NoGaps(Numbers(verses))
  {
    if ValidateChapterVerses(book, chapter, verses).errors == [] {
      forall n ensures multiset(Numbers(verses))[n] <= 1 {
        CleanNoRepeats(book, chapter, verses, n);
      }
      forall i | 0 <= i < |verses| ensures !Inverted(verses[i]) {
        CleanNoInverted(book, chapter, verses, i);
      }
      CleanNoGaps(book, chapter, verses);
    }
    if (forall n :: multiset(Numbers(verses))[n] <= 1)
       && (forall i :: 0 <= i < |verses| ==> !Inverted(verses[i]))
       && NoGaps(Numbers(verses)) {
      ChapterVerseCleanIf(book, chapter, verses);
    }
  }

  /** One chapter: an empty one is a single `EmptyChapter`. */
  function ValidateChapter(book: int, key: int, c: C.Chapter): (r: Report)
    ensures |c.verses| == 0 ==> r == Report([EmptyChapter(book, key)], [], 0, 0)
    ensures r.verses == |c.verses| && r.chapters == 0
  {
    if |c.verses| == 0 then Report([EmptyChapter(book, key)], [], 0, 0)
    else ValidateChapterVerses(book, key, c.verses)
  }

  // ---------------------------------------------------------------------------
  // Chapters of one book

  function KeySet<V>(m: Entries<V>): set<int> {
    set i | 0 <= i < |m| :: m[i].0
  }

  /** The chapter numbers missing between the first and the last key: one
      `ChapterGap` listing them, then one `MissingChapter` each. */
  function ChapterGapErrors(book: int, chapters: Entries<C.Chapter>): (r: seq<ValidationError>)
  {
    if |chapters| == 0 then []
    else
      var missing := Missing(chapters[0].0, chapters[|chapters| - 1].0, KeySet(chapters));
      if |missing| == 0 then []
      else [ChapterGap(book, missing)] + MissingChapters(book, missing)
  }

  /** One `MissingChapter` per missing number, in order. */
  function MissingChapters(book: int, missing: seq<int>): (r: seq<ValidationError>)
    ensures |r| == |missing| && forall i :: 0 <= i < |r| ==> r[i] == MissingChapter(book, missing[i])
  {
    if |missing| == 0 then [] else [MissingChapter(book, missing[0])] + MissingChapters(book, missing[1..])
  }

  /** No chapter number between the first and the last key is missing. */
  ghost predicate NoChapterGaps(chapters: Entries<C.Chapter>) {
    |chapters| == 0 || forall k :: chapters[0].0 <= k <= chapters[|chapters| - 1].0 ==> k in KeySet(chapters)
  }

  /** In a `BTreeMap` the first and last keys are the smallest and the
      largest, so a chapter is reported missing exactly when it lies between
      two present chapters without being present itself. */
  lemma ChapterGapMissing(book: int, chapters: Entries<C.Chapter>, k: int)
    requires Ascending(chapters)
    ensures MissingChapter(book, k) in ChapterGapErrors(book, chapters)
            <==> (exists i :: 0 <= i < |chapters| && chapters[i].0 < k)
                 && (exists j :: 0 <= j < |chapters| && k < chapters[j].0)
                 && k !in KeySet(chapters)
  {
    if |chapters| > 0 {
      var lo, hi := chapters[0].0, chapters[|chapters| - 1].0;
      var missing := Missing(lo, hi, KeySet(chapters));
      var listed := MissingChapters(book, missing);
      assert MissingChapter(book, k) in ChapterGapErrors(book, chapters) <==> k in missing by {
        assert MissingChapter(book, k) in listed <==> k in missing;
      }
      assert k in missing <==> lo <= k <= hi && k !in KeySet(chapters);
      assert lo in KeySet(chapters) && hi in KeySet(chapters);
      assert forall i :: 0 <= i < |chapters| ==> lo <= chapters[i].0 <= hi;
    }
  }

  /** The gap errors are absent exactly when no chapter is missing. */
  lemma ChapterGapNone(book: int, chapters: Entries<C.Chapter>)
    ensures ChapterGapErrors(book, chapters) == [] <==> NoChapterGaps(chapters)
  {
    if |chapters| > 0 {
      var lo, hi := chapters[0].0, chapters[|chapters| - 1].0;
      var missing := Missing(lo, hi, KeySet(chapters));
      if missing != [] {
        assert missing[0] !in KeySet(chapters);
      }
    }
  }

  /** The chapter loop: each chapter's report, in key order, with the keys of
      the chapters that had errors. */
  function ValidateChapters(book: int, chapters: Entries<C.Chapter>): (r: (Report, seq<int>))
    ensures r.0.chapters == |chapters| && r.0.verses == VerseCount(chapters)
    ensures |r.1| == 0 <==> |r.0.errors| == 0
    ensures forall k :: k in r.1 ==> k in KeySet(chapters)
    decreases |chapters|
  {
    if |chapters| == 0 then (Report([], [], 0, 0), [])
    else
      var head := ValidateChapter(book, chapters[0].0, chapters[0].1);
      var (rest, keys) := ValidateChapters(book, chapters[1..]);
      assert forall k :: k in KeySet(chapters[1..]) ==> k in KeySet(chapters) by {
        forall k | k in KeySet(chapters[1..]) ensures k in KeySet(chapters) {
          var i :| 0 <= i < |chapters[1..]| && chapters[1..][i].0 == k;
          assert chapters[i + 1].0 == k;
        }
      }
      (Report(head.errors + rest.errors, head.warnings + rest.warnings, 1 + rest.chapters, head.verses + rest.verses),
       (if |head.errors| > 0 then [chapters[0].0] else []) + keys)
  }

  /** Verse entries in a list of chapters. */
  function VerseCount(chapters: Entries<C.Chapter>): nat {
    if |chapters| == 0 then 0 else |chapters[0].1.verses| + VerseCount(chapters[1..])
  }

  /** `validate_book_chapters`: the gap errors and the start warning first,
      then each chapter in key order. */
  function ValidateBookChapters(book: int, chapters: Entries<C.Chapter>): (r: (Report, seq<int>))
    ensures r.0.chapters == |chapters| && r.0.verses == VerseCount(chapters)
    ensures StartsWithSeq(r.0.errors, ChapterGapErrors(book, chapters))
    ensures |chapters| > 0 && chapters[0].0 != 1 ==> |r.0.warnings| > 0 && r.0.warnings[0] == ChapterStart(book, chapters[0].0)
  {
    var gaps := ChapterGapErrors(book, chapters);
    var start := if |chapters| > 0 && chapters[0].0 != 1 then [ChapterStart(book, chapters[0].0)] else [];
    var (body, keys) := ValidateChapters(book, chapters);
    (Report(gaps + body.errors, start + body.warnings, body.chapters, body.verses), keys)
  }

  predicate StartsWithSeq<T(==)>(s: seq<T>, prefix: seq<T>) {
    |prefix| <= |s| && s[..|prefix|] == prefix
  }

  // ---------------------------------------------------------------------------
  // Books

  /** One book's contribution, with the flag that puts it into
      `books_with_errors` and the chapters that go into
      `chapters_with_errors`. An empty book is one `EmptyBook` and its
      chapters are not looked at. */
  datatype BookReport = BookReport(report: Report, counted: bool, badChapters: seq<int>)

  function ValidateBook(key: int, book: C.Book): (r: BookReport)
    ensures |book.chapters| == 0 ==> r == BookReport(Report([EmptyBook(key)], [], 0, 0), true, [])
    ensures r.report.chapters == |book.chapters| && r.report.verses == VerseCount(book.chapters)
  {
    if |book.chapters| == 0 then BookReport(Report([EmptyBook(key)], [], 0, 0), true, [])
    else
      var (report, bad) := ValidateBookChapters(key, book.chapters);
      BookReport(report, |bad| > 0, bad)
  }

  /** The running totals of `validate_books`; the two sets are its
      `HashSet`s. */
  datatype Tally = Tally(errors: seq<ValidationError>, warnings: seq<Warning>,
                         books: nat, chapters: nat, verses: nat,
                         badBooks: set<int>, badChapters: set<(int, int)>)

  function TallyBooks(books: Entries<C.Book>): (t: Tally)
    ensures t.books == |books| && t.chapters == ChapterCount(books) && t.verses == AllVerses(books)
  {
    if |books| == 0 then Tally([], [], 0, 0, 0, {}, {})
    else
      var n := |books| - 1;
      AddBook(TallyBooks(books[..n]), books[n].0, ValidateBook(books[n].0, books[n].1))
  }

  /** One iteration of the book loop. */
  function AddBook(t: Tally, key: int, b: BookReport): (r: Tally)
    ensures r.errors == t.errors + b.report.errors
    ensures r.books == t.books + 1 && r.chapters == t.chapters + b.report.chapters && r.verses == t.verses + b.report.verses
  {
    Tally(t.errors + b.report.errors, t.warnings + b.report.warnings,
          t.books + 1, t.chapters + b.report.chapters, t.verses + b.report.verses,
          if b.counted then t.badBooks + {key} else t.badBooks,
          t.badChapters + set c | c in b.badChapters :: (key, c))
  }

  /** Chapter entries over all books. */
  function ChapterCount(books: Entries<C.Book>): nat {
    if |books| == 0 then 0 else ChapterCount(books[..|books| - 1]) + |books[|books| - 1].1.chapters|
  }

  /** Verse entries over all books. */
  function AllVerses(books: Entries<C.Book>): nat {
    if |books| == 0 then 0 else AllVerses(books[..|books| - 1]) + VerseCount(books[|books| - 1].1.chapters)
  }

  /** `validate_books`. */
  function ValidateBooks(books: Entries<C.Book>): (r: ValidationResult)
    ensures r.statistics.totalBooks == |books|
    ensures r.statistics.totalChapters == ChapterCount(books)
    ensures r.statistics.totalVerses == AllVerses(books)
  {
    var t := TallyBooks(books);
    ValidationResult(t.errors, t.warnings,
                     Statistics(t.books, t.chapters, t.verses, |t.badBooks|, |t.badChapters|))
  }

  // ---------------------------------------------------------------------------
  // When a translation passes the check

  /** A chapter the check accepts: it has verses, no number is recorded
      twice, no range is inverted and no verse is missing. */
  ghost predicate ChapterSound(c: C.Chapter) {
    |c.verses| > 0
    && (forall n :: multiset(Numbers(c.verses))[n] <= 1)
    && (forall i :: 0 <= i < |c.verses| ==> !Inverted(c.verses[i]))
    && NoGaps(Numbers(c.verses))
  }

  /** A book the check accepts: it has chapters, none is missing, and each
      is sound. */
  ghost predicate BookSound(b: C.Book) {
    |b.chapters| > 0 && NoChapterGaps(b.chapters)
    && forall i :: 0 <= i < |b.chapters| ==> ChapterSound(b.chapters[i].1)
  }

  lemma ChapterClean(book: int, key: int, c: C.Chapter)
    ensures ValidateChapter(book, key, c).errors == [] <==> ChapterSound(c)
  {
    if |c.verses| > 0 {
      ChapterVerseClean(book, key, c.verses);
    }
  }

  lemma {:induction false} ChaptersClean(book: int, chapters: Entries<C.Chapter>)
    ensures ValidateChapters(book, chapters).0.errors == []
            <==> forall i :: 0 <= i < |chapters| ==> ChapterSound(chapters[i].1)
    decreases |chapters|
  {
    if |chapters| > 0 {
      ChapterClean(book, chapters[0].0, chapters[0].1);
      ChaptersClean(book, chapters[1..]);
      assert forall i :: 1 <= i < |chapters| ==> chapters[i] == chapters[1..][i - 1];
    }
  }

  lemma BookClean(key: int, b: C.Book)
    ensures ValidateBook(key, b).report.errors == [] <==> BookSound(b)
  {
    if |b.chapters| > 0 {
      ChapterGapNone(key, b.chapters);
      ChaptersClean(key, b.chapters);
    }
  }

  /** The book of this entry adds no error. */
  predicate AddsNoErrors(entry: (int, C.Book)) {
    ValidateBook(entry.0, entry.1).report.errors == []
  }

  lemma {:induction false} TallyClean(books: Entries<C.Book>)
    ensures TallyBooks(books).errors == [] <==> forall i :: 0 <= i < |books| ==> AddsNoErrors(books[i])
    decreases |books|
  {
    if |books| > 0 {
      var n := |books| - 1;
      var front := books[..n];
      TallyClean(front);
      assert TallyBooks(books).errors == TallyBooks(front).errors + ValidateBook(books[n].0, books[n].1).report.errors;
      if forall i :: 0 <= i < |books| ==> AddsNoErrors(books[i]) {
        forall i | 0 <= i < n ensures AddsNoErrors(front[i]) {
          assert front[i] == books[i];
        }
      }
      if (forall i :: 0 <= i < n ==> AddsNoErrors(front[i])) && AddsNoErrors(books[n]) {
        forall i | 0 <= i < |books| ensures AddsNoErrors(books[i]) {
          if i < n {
            assert front[i] == books[i];
          } else {
            assert i == n;
          }
        }
      }
    }
  }

  /** The check passes exactly when every book is sound. */
  lemma BooksValid(books: Entries<C.Book>)
    ensures IsValid(ValidateBooks(books)) <==> forall i :: 0 <= i < |books| ==> BookSound(books[i].1)
  {
    TallyClean(books);
    forall i | 0 <= i < |books| ensures AddsNoErrors(books[i]) <==> BookSound(books[i].1) {
      BookClean(books[i].0, books[i].1);
    }
  }

  // ---------------------------------------------------------------------------
  // `books_with_errors`

  /** As written, a book enters `books_with_errors` only through an empty
      book or a chapter with errors: a book whose chapters are all sound but
      which has a gap between them adds `ChapterGap` and `MissingChapter`
      errors and is still not counted. */
  lemma GapOnlyBookNotCounted(key: int, b: C.Book)
    requires |b.chapters| > 0 && !NoChapterGaps(b.chapters)
    requires forall i :: 0 <= i < |b.chapters| ==> ChapterSound(b.chapters[i].1)
    ensures ValidateBook(key, b).report.errors != []
    ensures !ValidateBook(key, b).counted
  {
    BookClean(key, b);
    ChaptersClean(key, b.chapters);
  }

  /** Such a book alone: the check fails, yet no book is counted. */
  lemma GapOnlyBookStatistics(key: int, b: C.Book)
    requires |b.chapters| > 0 && !NoChapterGaps(b.chapters)
    requires forall i :: 0 <= i < |b.chapters| ==> ChapterSound(b.chapters[i].1)
    ensures var r := ValidateBooks([(key, b)]);
            !IsValid(r) && r.statistics.booksWithErrors == 0
  {
    GapOnlyBookNotCounted(key, b);
    var books := [(key, b)];
    assert books[..0] == [];
    assert TallyBooks(books) == AddBook(TallyBooks([]), key, ValidateBook(key, b));
  }

  /** One such book: chapters 1 and 3, each holding just verse 1. */
  lemma GapOnlyBookExample(name: string)
    ensures var c := C.Chapter([Verse(Single(1), "", None)], map[]);
            var b := C.Book(name, None, [(1, c), (3, c)]);
            |b.chapters| > 0 && !NoChapterGaps(b.chapters)
            && forall i :: 0 <= i < |b.chapters| ==> ChapterSound(b.chapters[i].1)
  {
    var c := C.Chapter([Verse(Single(1), "", None)], map[]);
    var b := C.Book(name, None, [(1, c), (3, c)]);
    assert Numbers(c.verses) == [1] by {
      assert Numbers(c.verses[1..]) == [];
    }
    assert multiset([1 as nat]) == multiset{1};
    assert 2 !in KeySet(b.chapters);
    assert ChapterSound(c);
  }

  lemma BooksWithErrorsMissesGap(name: string)
    ensures var c := C.Chapter([Verse(Single(1), "", None)], map[]);
            var r := ValidateBooks([(0, C.Book(name, None, [(1, c), (3, c)]))]);
            !IsValid(r) && r.statistics.booksWithErrors == 0
  {
    GapOnlyBookExample(name);
    var c := C.Chapter([Verse(Single(1), "", None)], map[]);
    GapOnlyBookStatistics(0, C.Book(name, None, [(1, c), (3, c)]));
  }

  /** The books that added at least one error: what `books_with_errors` is
      meant to count. */
  function BadBooksIntended(books: Entries<C.Book>): (r: set<int>)
    ensures forall k :: k in r <==> exists i :: 0 <= i < |books| && books[i].0 == k && !AddsNoErrors(books[i])
  {
    set i | 0 <= i < |books| && !AddsNoErrors(books[i]) :: books[i].0
  }

  /** `validate_books` with every book that added an error counted. */
  function ValidateBooksIntended(books: Entries<C.Book>): (r: ValidationResult)
    ensures r.errors == ValidateBooks(books).errors
    ensures r.statistics.booksWithErrors == 0 <==> IsValid(r)
  {
    var r := ValidateBooks(books);
    var bad := BadBooksIntended(books);
    TallyClean(books);
    assert bad == {} <==> forall i :: 0 <= i < |books| ==> AddsNoErrors(books[i]) by {
      if bad != {} {
        var k :| k in bad;
      }
      if i :| 0 <= i < |books| && !AddsNoErrors(books[i]) {
        assert books[i].0 in bad;
      }
    }
    r.(statistics := r.statistics.(booksWithErrors := |bad|))
  }

  /** `TranslationV1::check`: only local books can be checked. */
  function Check(t: C.TranslationV1): (r: Result<(), ValidationError>)
    ensures t.books.Iagon? ==> r == Err(RemoteStorage)
    ensures t.books.Local? ==> (r.Ok? <==> IsValid(ValidateBooks(t.books.data)))
  {
    match t.books
    case Local(books) => ToError(ValidateBooks(books))
    case Iagon(_) => Err(RemoteStorage)
  }

  /** `TranslationV1::validate`. */
  function Validate(t: C.TranslationV1): (r: Result<ValidationResult, ValidationError>)
    ensures t.books.Iagon? ==> r == Err(RemoteStorage)
    ensures t.books.Local? ==> r == Ok(ValidateBooks(t.books.data))
    ensures r.Ok? ==> r.value.statistics.totalBooks == |t.books.data|
                      && r.value.statistics.totalChapters == ChapterCount(t.books.data)
                      && r.value.statistics.totalVerses == AllVerses(t.books.data)
  {
    match t.books
    case Local(books) => Ok(ValidateBooks(books))
    case Iagon(_) => Err(RemoteStorage)
  }

  /** A report on local books is clean exactly when every book is sound. */
  lemma ValidateSound(t: C.TranslationV1)
    requires t.books.Local?
    ensures Validate(t).Ok?
    ensures IsValid(Validate(t).value) <==> forall i :: 0 <= i < |t.books.data| ==> BookSound(t.books.data[i].1)
  {
    BooksValid(t.books.data);
  }

  /** `check` fails exactly when `validate` fails or finds an error. */
  lemma CheckAgreesWithValidate(t: C.TranslationV1)
    ensures Check(t).Ok? <==> Validate(t).Ok? && IsValid(Validate(t).value)
  {
  }
}
