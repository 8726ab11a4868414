/** The keyboard instruction processor (site/src/instructions/processor.rs):
    navigation relative to the chapter on screen, and the two copy commands.
    Navigating and writing to the clipboard are effects; the model returns
    them as the `Effect` of an instruction. */
module Processor {
  import opened Wrappers
  import opened Strings
  import opened BibleCore
  import opened QueryParams
  import I = Instructions
  import VS = ViewState

  /** `InstructionContext`: the chapter on screen and the URL's query. */
  datatype Context = Context(chapter: Chapter, searchParams: string, pathname: string)

  /** What `process` did: whether it handled the instruction, where it
      navigated and what it copied. */
  datatype Effect = Effect(handled: bool, navigation: Option<string>, clipboard: Option<string>)

  // ---------------------------------------------------------------------------
  // Navigation

  /** `handle_next_verse`: heading to verse 1, verse to verse, and from the
      last verse to the heading of the next chapter. */
  function NextVersePath(ctx: Context, bible: Bible): (r: Option<string>)
    ensures r == NextVerseFrom(ctx.chapter, CurrentVerse(ctx.searchParams), bible)
  {
    NextVerseFrom(ctx.chapter, CurrentVerse(ctx.searchParams), bible)
  }

  /** The target of `handle_next_verse` from verse `v` (0 for the heading). */
  function NextVerseFrom(c: Chapter, v: nat, bible: Bible): (r: Option<string>)
    ensures v == 0 ==> r == Some(VS.VersePath(c, 1))
    ensures 1 <= v < |c.verses| ==> r == Some(VS.VersePath(c, v + 1))
    ensures v > 0 && v >= |c.verses| ==> r == PathOf(NextChapter(bible, c))
  {
    if v == 0 then Some(VS.VersePath(c, 1))
    else if NextVerse(c, v).Some? then Some(VS.VersePath(c, NextVerse(c, v).value))
    else PathOf(NextChapter(bible, c))
  }

  /** `handle_previous_verse`: heading to the previous chapter's heading,
      verse 1 to the heading, and verse to verse. */
  function PreviousVersePath(ctx: Context, bible: Bible): (r: Option<string>)
    ensures r == PreviousVerseFrom(ctx.chapter, CurrentVerse(ctx.searchParams), bible)
  {
    PreviousVerseFrom(ctx.chapter, CurrentVerse(ctx.searchParams), bible)
  }

  /** The target of `handle_previous_verse` from verse `v` (0 for the heading). */
  function PreviousVerseFrom(c: Chapter, v: nat, bible: Bible): (r: Option<string>)
    ensures v == 0 ==> r == PathOf(PreviousChapter(bible, c))
    ensures v == 1 ==> r == Some(ToPath(c))
    ensures v > 1 ==> r == Some(VS.VersePath(c, v - 1))
  {
    if v == 0 then PathOf(PreviousChapter(bible, c))
    else if v == 1 then Some(ToPath(c))
    else
      // `get_previous_verse` of a verse above 1 is never `None`.
      Some(VS.VersePath(c, PreviousVerse(c, v).value))
  }

  /** The navigation instructions `process` handles. */
  predicate IsProcessedMove(i: I.Instruction) {
    I.IsCountedMove(i) || i.BeginningOfChapter? || i.EndOfChapter? || i.GoToVerse?
  }

  /** The effect of a navigation instruction. Verse steps and the jump to the
      heading always count as handled, even when there is nowhere to go; the
      other moves are handled exactly when their target exists. */
  function MoveEffect(ctx: Context, i: I.Instruction, bible: Bible): (r: Effect)
    requires IsProcessedMove(i)
    ensures r.clipboard.None?
    ensures r.navigation.Some? ==> r.handled
    ensures (i.NextVerse? || i.PreviousVerse? || i.BeginningOfChapter?) ==> r.handled
    ensures i.NextChapter? ==> (r.handled <==> NextChapter(bible, ctx.chapter).Some?)
    ensures i.PreviousChapter? ==> (r.handled <==> PreviousChapter(bible, ctx.chapter).Some?)
    ensures i.NextBook? ==> (r.handled <==> NextBook(bible, ctx.chapter).Some?)
    ensures i.PreviousBook? ==> (r.handled <==> PreviousBook(bible, ctx.chapter).Some?)
    ensures i.EndOfChapter? ==> (r.handled <==> |ctx.chapter.verses| > 0)
    ensures i.GoToVerse? ==> (r.handled <==> 1 <= i.verse <= |ctx.chapter.verses|)
    ensures !i.NextVerse? && !i.PreviousVerse? ==> (r.handled <==> r.navigation.Some?)
  {
    var c := ctx.chapter;
    match i
    case NextVerse => Effect(true, NextVersePath(ctx, bible), None)
    case PreviousVerse => Effect(true, PreviousVersePath(ctx, bible), None)
    case NextChapter =>
      var p := PathOf(NextChapter(bible, c));
      Effect(p.Some?, p, None)
    case PreviousChapter =>
      var p := PathOf(PreviousChapter(bible, c));
      Effect(p.Some?, p, None)
    case NextBook =>
      var p := PathOf(NextBook(bible, c));
      Effect(p.Some?, p, None)
    case PreviousBook =>
      var p := PathOf(PreviousBook(bible, c));
      Effect(p.Some?, p, None)
    case BeginningOfChapter => Effect(true, Some(ToPath(c)), None)
    case EndOfChapter =>
      var last := |c.verses|;
      if last > 0 then Effect(true, Some(ToPathWithVerses(c, [VerseRange(last, last)])), None)
      else Effect(false, None, None)
    case GoToVerse(n) =>
      if n > 0 && n <= |c.verses| then Effect(true, Some(ToPathWithVerses(c, [VerseRange(n, n)])), None)
      else Effect(false, None, None)
  }

  // ---------------------------------------------------------------------------
  // Copying

  /** Some selected range contains verse number `n`. */
  predicate Selected(ranges: seq<VerseRange>, n: nat) {
    exists k :: 0 <= k < |ranges| && InRange(ranges[k], n)
  }

  /** The verses of the chapter that lie in a selected range, in chapter order,
      each once. */
  function SelectedVerses(vs: seq<Verse>, ranges: seq<VerseRange>): (r: seq<Verse>)
    ensures |r| <= |vs|
    ensures forall j :: 0 <= j < |r| ==> r[j] in vs && Selected(ranges, r[j].verse)
  {
    if vs == [] then []
    else (if Selected(ranges, vs[0].verse) then [vs[0]] else []) + SelectedVerses(vs[1..], ranges)
  }

  /** Every selected verse of the chapter is copied. */
  lemma {:induction false} SelectedVersesComplete(vs: seq<Verse>, ranges: seq<VerseRange>, j: nat)
    requires j < |vs| && Selected(ranges, vs[j].verse)
    ensures vs[j] in SelectedVerses(vs, ranges)
  {
    if j > 0 {
      assert vs[1..][j - 1] == vs[j];
      SelectedVersesComplete(vs[1..], ranges, j - 1);
    }
  }

  /** When exactly one verse of the chapter is selected, that verse alone is
      copied. */
  lemma {:induction false} SelectedVersesSingle(vs: seq<Verse>, ranges: seq<VerseRange>, j: nat)
    requires j < |vs| && Selected(ranges, vs[j].verse)
    requires forall k :: 0 <= k < |vs| && k != j ==> !Selected(ranges, vs[k].verse)
    ensures SelectedVerses(vs, ranges) == [vs[j]]
  {
    if j == 0 {
      SelectedVersesNone(vs[1..], ranges);
    } else {
      assert !Selected(ranges, vs[0].verse);
      forall k | 0 <= k < |vs[1..]| && k != j - 1 ensures !Selected(ranges, vs[1..][k].verse) {
        assert vs[1..][k] == vs[k + 1];
      }
      SelectedVersesSingle(vs[1..], ranges, j - 1);
    }
  }

  lemma {:induction false} SelectedVersesNone(vs: seq<Verse>, ranges: seq<VerseRange>)
    requires forall k :: 0 <= k < |vs| ==> !Selected(ranges, vs[k].verse)
    ensures SelectedVerses(vs, ranges) == []
    decreases |vs|
  {
    if vs != [] {
      SelectedVersesNone(vs[1..], ranges);
    }
  }

  function Texts(vs: seq<Verse>): (r: seq<string>)
    ensures |r| == |vs| && forall j :: 0 <= j < |vs| ==> r[j] == vs[j].text
  {
    seq(|vs|, j requires 0 <= j < |vs| => vs[j].text)
  }

  /** `handle_copy_raw_verse`: the selected verse texts joined by spaces, or
      the chapter name when nothing is selected. */
  function RawCopyText(c: Chapter, ranges: seq<VerseRange>): (r: string)
    ensures SelectedVerses(c.verses, ranges) == [] ==> r == c.name
  {
    var selected := SelectedVerses(c.verses, ranges);
    if ranges != [] && selected != [] then Join(Texts(selected), " ") else c.name
  }

  /** A chapter whose verses are numbered 1, 2, 3, ... in order. */
  predicate Numbered(c: Chapter) {
    forall j :: 0 <= j < |c.verses| ==> c.verses[j].verse == j + 1
  }

  /** In a numbered chapter, range `n-n` selects verse `n` alone. */
  lemma SelectSingleVerse(c: Chapter, n: nat)
    requires Numbered(c) && 1 <= n <= |c.verses|
    ensures SelectedVerses(c.verses, [VerseRange(n, n)]) == [c.verses[n - 1]]
  {
    var rs := [VerseRange(n, n)];
    assert InRange(rs[0], c.verses[n - 1].verse);
    forall k | 0 <= k < |c.verses| && k != n - 1 ensures !Selected(rs, c.verses[k].verse) {
      assert c.verses[k].verse != n;
    }
    SelectedVersesSingle(c.verses, rs, n - 1);
  }

  /** Copying from a URL that selects verse `n` copies exactly that verse's
      text. */
  lemma CopyRawSingleVerse(c: Chapter, n: nat)
    requires Numbered(c) && 1 <= n <= |c.verses| && n < U32_LIMIT
    ensures RawCopyText(c, VerseRanges(VersesKey + RangesParam([VerseRange(n, n)]))) == c.verses[n - 1].text
  {
    var rs := [VerseRange(n, n)];
    assert VerseRanges(VersesKey + RangesParam(rs)) == rs by {
      QueryRoundTrip(rs);
    }
    RawCopySingle(c, n);
  }

  lemma RawCopySingle(c: Chapter, n: nat)
    requires Numbered(c) && 1 <= n <= |c.verses|
    ensures RawCopyText(c, [VerseRange(n, n)]) == c.verses[n - 1].text
  {
    SelectSingleVerse(c, n);
    assert Texts([c.verses[n - 1]]) == [c.verses[n - 1].text];
  }

  /** The verse label of a reference: a single verse as its number, otherwise
      the ranges as `a` or `a-b`, separated by commas. */
  function ReferenceLabel(ranges: seq<VerseRange>): (r: string)
    ensures r == RangesParam(ranges)
  {
    if |ranges| == 1 && ranges[0].start == ranges[0].end then
      assert RangesParam(ranges) == Join([RangeText(ranges[0])], ",");
      NatToString(ranges[0].start)
    else
      assert RangeTexts(ranges) == seq(|ranges|, i requires 0 <= i < |ranges| => RangeText(ranges[i]));
      Join(RangeTexts(ranges), ",")
  }

  /** The book and chapter of a reference as the source takes them from the
      chapter name: its first and second words (`""` and `"1"` when
      missing). */
  function ReferenceParts(name: string): (r: (string, string))
    ensures SplitWhitespace(name) == [] ==> r == ("", "1")
    ensures |SplitWhitespace(name)| >= 2 ==> r == (SplitWhitespace(name)[0], SplitWhitespace(name)[1])
  {
    var words := SplitWhitespace(name);
    (if |words| >= 1 then words[0] else "", if |words| >= 2 then words[1] else "1")
  }

  /** A numbered book cuts in the wrong place: `"1 Timothy 3"` gives book
      `"1"` and chapter `"Timothy"`. */
  lemma ReferencePartsSplitsNumberedBook()
    ensures ReferenceParts("1 Timothy 3") == ("1", "Timothy")
  {
    TimothyWords();
  }

  lemma TimothyWords()
    ensures SplitWhitespace("1 Timothy 3") == ["1", "Timothy", "3"]
  {
    var words := ["1", "Timothy", "3"];
    assert IsWord("1") && IsWord("Timothy") && IsWord("3");
    SplitWhitespaceJoin(words);
    assert Join(words, " ") == "1 Timothy 3";
  }

  /** The book and chapter of a chapter name `"<book words> <n>"`: every word
      but the last, and the last. */
  function ReferencePartsIntended(name: string): (r: (string, string))
    ensures |SplitWhitespace(name)| >= 2 ==> r.0 == PathBook(name)
    ensures |SplitWhitespace(name)| >= 2 ==> r.1 == SplitWhitespace(name)[|SplitWhitespace(name)| - 1]
    ensures |SplitWhitespace(name)| < 2 ==> r == ReferenceParts(name)
  {
    var words := SplitWhitespace(name);
    if |words| >= 2 then (Join(words[..|words| - 1], " "), words[|words| - 1])
    else ReferenceParts(name)
  }

  /** For any chapter name built from book words and a number, the intended
      parts are the book words and the number. */
  lemma ReferencePartsOfName(words: seq<string>, n: string)
    requires |words| > 0 && IsWord(n)
    requires forall i :: 0 <= i < |words| ==> IsWord(words[i])
    ensures ReferencePartsIntended(Join(words + [n], " ")) == (Join(words, " "), n)
  {
    var all := words + [n];
    assert forall i :: 0 <= i < |all| ==> IsWord(all[i]);
    SplitWhitespaceJoin(all);
    assert all[..|all| - 1] == words;
  }

  lemma ReferencePartsFixed()
    ensures ReferencePartsIntended("1 Timothy 3") == ("1 Timothy", "3")
  {
    assert IsWord("1") && IsWord("Timothy") && IsWord("3");
    ReferencePartsOfName(["1", "Timothy"], "3");
    TimothyJoined();
  }

  lemma TimothyJoined()
    ensures Join(["1", "Timothy"] + ["3"], " ") == "1 Timothy 3"
    ensures Join(["1", "Timothy"], " ") == "1 Timothy"
  {
    var two, three := ["1", "Timothy"], ["1", "Timothy", "3"];
    assert two + ["3"] == three;
    assert two[1..] == ["Timothy"] && three[1..] == ["Timothy", "3"] && three[1..][1..] == ["3"];
    assert Join(["Timothy", "3"], " ") == "Timothy 3";
  }

  const SiteRoot := "https://bible.pruijs.net/"

  /** The `verses` value the link repeats: the text after the first `verses=`
      up to the next `&`, or empty. */
  function LinkVersesParam(query: string): (r: string)
    ensures '&' !in r
  {
    Split(VersesSegment(query).GetOr(""), '&')[0]
  }

  /** The link of a URL that selects ranges repeats that selection, so opening
      it selects the same ranges. */
  lemma LinkVersesRoundTrip(rs: seq<VerseRange>)
    requires forall i :: 0 <= i < |rs| ==> ValidRange(rs[i])
    ensures LinkVersesParam(VersesKey + RangesParam(rs)) == RangesParam(rs)
    ensures VerseRanges(VersesKey + LinkVersesParam(VersesKey + RangesParam(rs))) == rs
  {
    QueryChars(rs);
    VersesSegmentOfParam(RangesParam(rs));
    SplitNoSep(RangesParam(rs), '&');
    QueryRoundTrip(rs);
  }

  /** `handle_copy_verse_with_reference`: the texts, a blank line,
      `"<book> <chapter>:<label>"` with the book translated when the
      translation knows it, and a link to the selection, the book and chapter
      being the chapter name's first and second words. Without a selection
      the chapter name; with a selection that matches no verse, nothing. */
  function ReferenceCopyText(c: Chapter, query: string, translate: string -> Option<string>): (r: string)
    ensures VerseRanges(query) == [] ==> r == c.name
    ensures VerseRanges(query) != [] && SelectedVerses(c.verses, VerseRanges(query)) == [] ==> r == ""
    ensures VerseRanges(query) != [] && SelectedVerses(c.verses, VerseRanges(query)) != [] ==>
      StartsWith(r, Join(Texts(SelectedVerses(c.verses, VerseRanges(query))), " ") + "\n\n")
  {
    var ranges := VerseRanges(query);
    if ranges == [] then c.name
    else
      var selected := SelectedVerses(c.verses, ranges);
      if selected == [] then "" else ReferenceBlock(c.name, selected, ranges, query, translate)
  }

  /** The copied block of a non-empty selection as written: book and chapter
      from `ReferenceParts`. */
  function ReferenceBlock(name: string, selected: seq<Verse>, ranges: seq<VerseRange>, query: string,
                          translate: string -> Option<string>): (r: string)
    ensures StartsWith(r, Join(Texts(selected), " ") + "\n\n")
  {
    BlockOf(ReferenceParts(name), selected, ranges, query, translate)
  }

  /** The copied block with the book and chapter the chapter name means. */
  function ReferenceBlockIntended(name: string, selected: seq<Verse>, ranges: seq<VerseRange>, query: string,
                                  translate: string -> Option<string>): (r: string)
    ensures StartsWith(r, Join(Texts(selected), " ") + "\n\n")
  {
    BlockOf(ReferencePartsIntended(name), selected, ranges, query, translate)
  }

  /** Texts, blank line, reference line, link. */
  function BlockOf(parts: (string, string), selected: seq<Verse>, ranges: seq<VerseRange>, query: string,
                   translate: string -> Option<string>): (r: string)
    ensures StartsWith(r, Join(Texts(selected), " ") + "\n\n")
  {
    var head := Join(Texts(selected), " ") + "\n\n";
    var tail := ReferenceLine(parts, ranges, translate) + "\n" + ReferenceLink(parts, query);
    assert (head + tail)[..|head|] == head;
    head + tail
  }

  /** `"<book> <chapter>:<label>"`, the book translated when the translation
      knows its lower-case name. */
  function ReferenceLine(parts: (string, string), ranges: seq<VerseRange>,
                         translate: string -> Option<string>): string
  {
    translate(ToLower(parts.0)).GetOr(parts.0) + " " + parts.1 + ":" + ReferenceLabel(ranges)
  }

  /** The site link: the book with `_` for spaces, lower-cased, then the
      chapter and the `verses` value of the current URL. */
  function ReferenceLink(parts: (string, string), query: string): string {
    SiteRoot + ToLower(ReplaceChar(parts.0, ' ', '_')) + "/" + parts.1 + "?verses=" + LinkVersesParam(query)
  }

  /** For a name of book words and a chapter number, the intended block
      names the whole book and the number. */
  lemma ReferenceBlockIntendedOfName(words: seq<string>, n: string, selected: seq<Verse>,
                                     ranges: seq<VerseRange>, query: string,
                                     translate: string -> Option<string>)
    requires |words| > 0 && IsWord(n)
    requires forall i :: 0 <= i < |words| ==> IsWord(words[i])
    ensures ReferenceBlockIntended(Join(words + [n], " "), selected, ranges, query, translate)
         == BlockOf((Join(words, " "), n), selected, ranges, query, translate)
  {
    ReferencePartsOfName(words, n);
  }

  /** Copying verse 2 of `"1 Timothy 3"` as written yields the reference
      `"1 Timothy:2"` and a link to book `1`, chapter `Timothy`; as intended,
      `"1 Timothy 3:2"` and a link to `1_timothy/3`. */
  lemma TimothyReference()
    ensures ReferenceLine(ReferenceParts("1 Timothy 3"), [VerseRange(2, 2)], _ => None) == "1 Timothy:2"
    ensures ReferenceLink(ReferenceParts("1 Timothy 3"), VersesKey + "2") == SiteRoot + "1/Timothy?verses=2"
    ensures ReferenceLine(ReferencePartsIntended("1 Timothy 3"), [VerseRange(2, 2)], _ => None) == "1 Timothy 3:2"
    ensures ReferenceLink(ReferencePartsIntended("1 Timothy 3"), VersesKey + "2") == SiteRoot + "1_timothy/3?verses=2"
  {
    ReferencePartsSplitsNumberedBook();
    ReferencePartsFixed();
    VerseTwoLabel();
    TimothyLines();
    TimothyLinks();
  }

  lemma VerseTwoLabel()
    ensures ReferenceLabel([VerseRange(2, 2)]) == "2"
    ensures LinkVersesParam(VersesKey + "2") == "2"
  {
    var rs := [VerseRange(2, 2)];
    LinkVersesRoundTrip(rs);
    assert RangesParam(rs) == "2";
  }

  lemma TimothyLines()
    requires ReferenceLabel([VerseRange(2, 2)]) == "2"
    ensures ReferenceLine(("1", "Timothy"), [VerseRange(2, 2)], _ => None) == "1 Timothy:2"
    ensures ReferenceLine(("1 Timothy", "3"), [VerseRange(2, 2)], _ => None) == "1 Timothy 3:2"
  {
  }

  lemma TimothyLinks()
    requires LinkVersesParam(VersesKey + "2") == "2"
    ensures ReferenceLink(("1", "Timothy"), VersesKey + "2") == SiteRoot + "1/Timothy?verses=2"
    ensures ReferenceLink(("1 Timothy", "3"), VersesKey + "2") == SiteRoot + "1_timothy/3?verses=2"
  {
    TimothyLinkWritten();
    TimothyLinkIntended();
  }

  lemma TimothyLinkWritten()
    requires LinkVersesParam(VersesKey + "2") == "2"
    ensures ReferenceLink(("1", "Timothy"), VersesKey + "2") == SiteRoot + "1/Timothy?verses=2"
  {
    assert ToLower(ReplaceChar("1", ' ', '_')) == "1" by {
      assert ReplaceChar("1", ' ', '_') == "1";
    }
  }

  lemma TimothyLinkIntended()
    requires LinkVersesParam(VersesKey + "2") == "2"
    ensures ReferenceLink(("1 Timothy", "3"), VersesKey + "2") == SiteRoot + "1_timothy/3?verses=2"
  {
    TimothyPath();
  }

  lemma TimothyPath()
    ensures ToLower(ReplaceChar("1 Timothy", ' ', '_')) == "1_timothy"
  {
    assert ReplaceChar("1 Timothy", ' ', '_') == "1_Timothy";
  }

  /** The reference line of a copied selection names the ranges exactly as
      the URL writes them. */
  lemma ReferenceLabelOfQuery(rs: seq<VerseRange>)
    requires forall i :: 0 <= i < |rs| ==> ValidRange(rs[i])
    ensures ReferenceLabel(VerseRanges(VersesKey + RangesParam(rs))) == RangesParam(rs)
  {
    QueryRoundTrip(rs);
  }

  // ---------------------------------------------------------------------------
  // Dispatch

  /** `process`: navigation and copying; every other instruction, `NoOp`
      included, is left to the interface and reports `false`. `translate`
      stands for the current translation's book-name lookup. */
  function Process(ctx: Context, i: I.Instruction, bible: Bible, translate: string -> Option<string>): (r: Effect)
    ensures !IsProcessedMove(i) && !i.CopyRawVerse? && !i.CopyVerseWithReference? ==> r == Effect(false, None, None)
    ensures IsProcessedMove(i) ==> r == MoveEffect(ctx, i, bible)
    ensures i.CopyRawVerse? ==> r == Effect(true, None, Some(RawCopyText(ctx.chapter, VerseRanges(ctx.searchParams))))
    ensures i.CopyVerseWithReference? ==> r == Effect(true, None, Some(ReferenceCopyText(ctx.chapter, ctx.searchParams, translate)))
  {
    if IsProcessedMove(i) then MoveEffect(ctx, i, bible)
    else if i.CopyRawVerse? then Effect(true, None, Some(RawCopyText(ctx.chapter, VerseRanges(ctx.searchParams))))
    else if i.CopyVerseWithReference? then Effect(true, None, Some(ReferenceCopyText(ctx.chapter, ctx.searchParams, translate)))
    else Effect(false, None, None)
  }

  // ---------------------------------------------------------------------------
  // Agreement with the view state

  /** A view state showing the processor's chapter and query in `bible`. */
  predicate Matches(s: VS.AppState, ctx: Context, bible: Bible) {
    s.currentChapter == Some(ctx.chapter) && s.searchParams == ctx.searchParams && s.currentBible == Some(bible)
  }

  /** The chapter jumps, end of chapter and go-to-verse navigate to the same
      place as the view state's handlers, and succeed in the same cases. */
  lemma ProcessorAgreesOnJumps(ctx: Context, bible: Bible, s: VS.AppState, i: I.Instruction)
    requires Matches(s, ctx, bible)
    requires i.BeginningOfChapter? || i.EndOfChapter? || i.GoToVerse? || i.NextChapter? || i.PreviousChapter?
    ensures MoveEffect(ctx, i, bible).handled <==> VS.NavigationResult(s, i).Navigate?
    ensures MoveEffect(ctx, i, bible).handled ==> MoveEffect(ctx, i, bible).navigation == Some(VS.NavigationResult(s, i).path)
  {
    if i.NextChapter? {
      NthNextOne(bible, ctx.chapter);
    } else if i.PreviousChapter? {
      NthPreviousOne(bible, ctx.chapter);
    }
  }

  /** Inside a chapter the processor and the view state step to the same
      verse. */
  lemma ProcessorAgreesInsideChapter(ctx: Context, bible: Bible, s: VS.AppState)
    requires Matches(s, ctx, bible)
    ensures CurrentVerse(ctx.searchParams) < |ctx.chapter.verses| ==>
      NextVersePath(ctx, bible) == Some(VS.NextVerseResult(s, 1).path)
    ensures CurrentVerse(ctx.searchParams) > 1 ==>
      PreviousVersePath(ctx, bible) == Some(VS.PreviousVerseResult(s, 1).path)
  {
    var v := CurrentVerse(ctx.searchParams);
    if v < |ctx.chapter.verses| {
      NextAgrees(ctx.chapter, v, bible);
    }
    if v > 1 {
      PreviousAgrees(ctx.chapter, v, bible);
    }
  }

  lemma NextAgrees(c: Chapter, v: nat, bible: Bible)
    requires v < |c.verses|
    ensures NextVerseFrom(c, v, bible) == Some(VS.VersePath(VS.NextVerseSteps(Some(bible), c, v, 1).0,
                                                           VS.NextVerseSteps(Some(bible), c, v, 1).1))
  {
    var step := VS.NextVerseStep(Some(bible), c, v);
    assert step == Some((c, v + 1));
    assert VS.NextVerseSteps(Some(bible), c, v, 1) == VS.NextVerseSteps(Some(bible), c, v + 1, 0);
  }

  lemma PreviousAgrees(c: Chapter, v: nat, bible: Bible)
    requires v > 1
    ensures PreviousVerseFrom(c, v, bible) == Some(VS.VersePath(VS.PreviousVerseSteps(Some(bible), c, v, 1).0,
                                                               VS.PreviousVerseSteps(Some(bible), c, v, 1).1))
  {
    var step := VS.PreviousVerseStep(Some(bible), c, v);
    assert step == Some((c, v - 1));
    assert VS.PreviousVerseSteps(Some(bible), c, v, 1) == VS.PreviousVerseSteps(Some(bible), c, v - 1, 0);
  }

  /** At a chapter's last verse the two part ways: the processor goes to the
      next chapter's heading, the view state to its first verse. */
  lemma ProcessorStopsAtHeading(ctx: Context, bible: Bible, s: VS.AppState, next: Chapter)
    requires Matches(s, ctx, bible)
    requires CurrentVerse(ctx.searchParams) == |ctx.chapter.verses| > 0
    requires NextChapter(bible, ctx.chapter) == Some(next)
    ensures NextVersePath(ctx, bible) == Some(ToPath(next))
    ensures VS.NextVerseResult(s, 1) == I.Navigate(VS.VersePath(next, 1))
  {
  }
}
