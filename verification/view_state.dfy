/** The reader's central view state and the instruction state machine that
    drives it (site/src/view_state.rs). Saving a flag to local storage is a
    side effect the model leaves out: the flags themselves are the state. */
module ViewState {
  import opened Wrappers
  import opened Strings
  import opened Percent
  import opened BibleCore
  import opened QueryParams
  import I = Instructions
  import opened Arithmetic

  /** The part of `AppState` the instructions read and write. */
  datatype AppState = AppState(
    leftSidebarOpen: bool,
    rightSidebarOpen: bool,
    themeSidebarOpen: bool,
    comparisonOpen: bool,
    paletteOpen: bool,
    verseVisibility: bool,
    nextPaletteTrigger: bool,
    previousPaletteTrigger: bool,
    currentChapter: Option<Chapter>,
    searchParams: string,
    previousChapterPath: Option<string>,
    currentBible: Option<Bible>,
    selectedBook: string)

  /** The references and themes panels are never open together. */
  predicate PanelsExclusive(s: AppState) {
    !(s.rightSidebarOpen && s.themeSidebarOpen)
  }

  /** `AppState::default`, with the values it reads from storage as parameters. */
  function Initial(leftOpen: bool, rightOpen: bool, visibility: bool, bible: Bible): (s: AppState)
    ensures PanelsExclusive(s) && !s.paletteOpen && !s.comparisonOpen
    ensures s.currentChapter.None? && s.searchParams == "" && s.previousChapterPath.None?
  {
    AppState(leftOpen, rightOpen, false, false, false, visibility, false, false, None, "", None, Some(bible), "")
  }

  // ---------------------------------------------------------------------------
  // Panel toggles

  function ToggleLeftSidebar(s: AppState): (r: AppState)
    ensures r == s.(leftSidebarOpen := !s.leftSidebarOpen)
  {
    s.(leftSidebarOpen := !s.leftSidebarOpen)
  }

  /** Opening the references panel closes the themes panel. */
  function ToggleRightSidebar(s: AppState): (r: AppState)
    ensures r.rightSidebarOpen == !s.rightSidebarOpen
    ensures r.rightSidebarOpen ==> !r.themeSidebarOpen
    ensures !r.rightSidebarOpen ==> r.themeSidebarOpen == s.themeSidebarOpen
    ensures r == s.(rightSidebarOpen := r.rightSidebarOpen, themeSidebarOpen := r.themeSidebarOpen)
  {
    var nowOpen := !s.rightSidebarOpen;
    if nowOpen then s.(rightSidebarOpen := true, themeSidebarOpen := false)
    else s.(rightSidebarOpen := false)
  }

  /** Opening the themes panel closes the references panel. */
  function ToggleThemeSidebar(s: AppState): (r: AppState)
    ensures r.themeSidebarOpen == !s.themeSidebarOpen
    ensures r.themeSidebarOpen ==> !r.rightSidebarOpen
    ensures !r.themeSidebarOpen ==> r.rightSidebarOpen == s.rightSidebarOpen
    ensures r == s.(rightSidebarOpen := r.rightSidebarOpen, themeSidebarOpen := r.themeSidebarOpen)
  {
    var nowOpen := !s.themeSidebarOpen;
    if nowOpen then s.(themeSidebarOpen := true, rightSidebarOpen := false)
    else s.(themeSidebarOpen := false)
  }

  function ToggleComparison(s: AppState): (r: AppState)
    ensures r == s.(comparisonOpen := !s.comparisonOpen)
  {
    s.(comparisonOpen := !s.comparisonOpen)
  }

  function TogglePalette(s: AppState): (r: AppState)
    ensures r == s.(paletteOpen := !s.paletteOpen)
  {
    s.(paletteOpen := !s.paletteOpen)
  }

  function ToggleVerseVisibility(s: AppState): (r: AppState)
    ensures r == s.(verseVisibility := !s.verseVisibility)
  {
    s.(verseVisibility := !s.verseVisibility)
  }

  /** The plain toggles undo themselves. */
  lemma ToggleTwice(s: AppState)
    ensures TogglePalette(TogglePalette(s)) == s
    ensures ToggleComparison(ToggleComparison(s)) == s
    ensures ToggleVerseVisibility(ToggleVerseVisibility(s)) == s
    ensures ToggleLeftSidebar(ToggleLeftSidebar(s)) == s
  {
    PaletteTwice(s);
    ComparisonTwice(s);
    VisibilityTwice(s);
    LeftTwice(s);
  }

  lemma PaletteTwice(s: AppState) ensures TogglePalette(TogglePalette(s)) == s {}
  lemma ComparisonTwice(s: AppState) ensures ToggleComparison(ToggleComparison(s)) == s {}
  lemma VisibilityTwice(s: AppState) ensures ToggleVerseVisibility(ToggleVerseVisibility(s)) == s {}
  lemma LeftTwice(s: AppState) ensures ToggleLeftSidebar(ToggleLeftSidebar(s)) == s {}

  /** Toggling the references panel twice restores the state exactly when the
      themes panel was closed to begin with: either way round, the second
      toggle leaves it closed. */
  lemma ToggleRightTwice(s: AppState)
    ensures ToggleRightSidebar(ToggleRightSidebar(s)) == s <==> !s.themeSidebarOpen
  {
    if s.themeSidebarOpen {
      assert !ToggleRightSidebar(ToggleRightSidebar(s)).themeSidebarOpen;
    }
  }

  /** `close_all_sidebars`: the four close instructions in turn. */
  function CloseAllSidebars(s: AppState): (r: AppState)
    ensures !r.leftSidebarOpen && !r.rightSidebarOpen && !r.themeSidebarOpen && !r.comparisonOpen
    ensures r.paletteOpen == s.paletteOpen && r.currentChapter == s.currentChapter
    ensures r.searchParams == s.searchParams && r.previousChapterPath == s.previousChapterPath
    ensures r.verseVisibility == s.verseVisibility && r.selectedBook == s.selectedBook
  {
    var s1 := CloseOrSelectStep(s, I.CloseLeftSidebar);
    var s2 := CloseOrSelectStep(s1, I.CloseRightSidebar);
    var s3 := CloseOrSelectStep(s2, I.CloseThemeSidebar);
    CloseOrSelectStep(s3, I.CloseTranslationComparison)
  }

  /** `close_all_overlays`: the palette, then every sidebar. */
  function CloseAllOverlays(s: AppState): (r: AppState)
    ensures !r.paletteOpen && !r.leftSidebarOpen && !r.rightSidebarOpen && !r.themeSidebarOpen && !r.comparisonOpen
    ensures r.currentChapter == s.currentChapter && r.searchParams == s.searchParams
  {
    CloseAllSidebars(CloseOrSelectStep(s, I.CloseCommandPalette))
  }

  // ---------------------------------------------------------------------------
  // Reading the URL state

  function CurrentVerseOf(s: AppState): nat {
    CurrentVerse(s.searchParams)
  }

  function VerseRangesOf(s: AppState): seq<VerseRange> {
    VerseRanges(s.searchParams)
  }

  /** The path of one verse of a chapter, or of the chapter heading for verse 0. */
  function VersePath(c: Chapter, v: nat): (r: string)
    ensures v == 0 ==> r == ToPath(c)
    ensures v > 0 ==> r == ToPath(c) + "?verses=" + RangeText(VerseRange(v, v))
  {
    if v == 0 then ToPath(c) else ToPathWithVerses(c, [VerseRange(v, v)])
  }

  // ---------------------------------------------------------------------------
  // Jumps inside the chapter

  function BeginningOfChapterResult(s: AppState): (r: I.InstructionResult)
    ensures r.Navigate? <==> s.currentChapter.Some?
    ensures r.Navigate? ==> r.path == ToPath(s.currentChapter.value)
  {
    match s.currentChapter
    case Some(c) => I.Navigate(ToPath(c))
    case None => I.Failed("No current chapter")
  }

  /** End-of-chapter goes to the last verse and fails on an empty chapter. */
  function EndOfChapterResult(s: AppState): (r: I.InstructionResult)
    ensures r.Navigate? <==> s.currentChapter.Some? && |s.currentChapter.value.verses| > 0
    ensures r.Navigate? ==> r.path == VersePath(s.currentChapter.value, |s.currentChapter.value.verses|)
    ensures s.currentChapter.None? ==> r == I.Failed("No current chapter")
    ensures s.currentChapter.Some? && |s.currentChapter.value.verses| == 0 ==> r == I.Failed("Chapter has no verses")
  {
    match s.currentChapter
    case Some(c) =>
      var last := |c.verses|;
      if last > 0 then I.Navigate(ToPathWithVerses(c, [VerseRange(last, last)]))
      else I.Failed("Chapter has no verses")
    case None => I.Failed("No current chapter")
  }

  /** Go-to-verse navigates exactly to a verse that exists in the chapter. */
  function GoToVerseResult(s: AppState, n: nat): (r: I.InstructionResult)
    ensures r.Navigate? <==> s.currentChapter.Some? && 1 <= n <= |s.currentChapter.value.verses|
    ensures r.Navigate? ==> r.path == VersePath(s.currentChapter.value, n)
    ensures !r.Navigate? ==> r.Failed?
  {
    match s.currentChapter
    case Some(c) =>
      if n > 0 && n <= |c.verses| then I.Navigate(ToPathWithVerses(c, [VerseRange(n, n)]))
      else I.Failed("Invalid verse number: " + NatToString(n))
    case None => I.Failed("No current chapter")
  }

  /** The path `switch_to_previous_chapter` stores for the chapter it leaves:
      the chapter path with its leading slashes collapsed to one, and the
      query. */
  function ReturnPath(c: Chapter, query: string): (r: string)
    ensures PathBook(c.name) != [] ==> r == ToPath(c) + "?" + query
  {
    ReturnPathOfNamedBook(c);
    "/" + TrimStartMatches(ToPath(c), '/') + "?" + query
  }

  /** A chapter whose book segment is not empty keeps its path unchanged. */
  lemma ReturnPathOfNamedBook(c: Chapter)
    ensures PathBook(c.name) != [] ==> "/" + TrimStartMatches(ToPath(c), '/') == ToPath(c)
  {
    var e := Encode(PathBook(c.name));
    if PathBook(c.name) != [] {
      EncodeHasNoSeparators(PathBook(c.name));
      assert e[0] in e;
      assert ToPath(c)[1] == e[0];
      TrimOneSlash(ToPath(c));
      assert "/" + ToPath(c)[1..] == ToPath(c);
    }
  }

  /** Trimming a path with exactly one leading slash removes that slash. */
  lemma TrimOneSlash(p: string)
    requires |p| > 1 && p[0] == '/' && p[1] != '/'
    ensures TrimStartMatches(p, '/') == p[1..]
  {
    assert TrimStartMatches(p, '/') == TrimStartMatches(p[1..], '/');
    assert p[1..][0] != '/';
  }

  /** Switching back fails without history; otherwise it goes to the stored
      path and stores the current chapter's return path in its place, so a
      second switch comes back. */
  function SwitchToPreviousChapterStep(s: AppState): (r: (AppState, I.InstructionResult))
    ensures s.previousChapterPath.None? ==> r == (s, I.Failed("No previous chapter available"))
    ensures s.previousChapterPath.Some? ==> r.1 == I.Navigate(s.previousChapterPath.value)
    ensures s.previousChapterPath.Some? && s.currentChapter.Some? ==>
      r.0 == s.(previousChapterPath := Some(ReturnPath(s.currentChapter.value, s.searchParams)))
    ensures s.currentChapter.None? ==> r.0 == s
  {
    match s.previousChapterPath
    case None => (s, I.Failed("No previous chapter available"))
    case Some(prev) =>
      match s.currentChapter
      case Some(c) => (s.(previousChapterPath := Some(ReturnPath(c, s.searchParams))), I.Navigate(prev))
      case None => (s, I.Navigate(prev))
  }

  // ---------------------------------------------------------------------------
  // Verse movement with a count

  /** One step of next-verse: heading to verse 1, verse to verse, last verse to
      the next chapter's first verse; `None` at the end of the Bible. */
  function NextVerseStep(bible: Option<Bible>, c: Chapter, v: nat): (r: Option<(Chapter, nat)>)
    ensures r.Some? ==> r.value.1 >= 1
    ensures v == 0 ==> r == Some((c, 1))
    ensures 1 <= v < |c.verses| ==> r == Some((c, v + 1))
  {
    if v == 0 then Some((c, 1))
    else match NextVerse(c, v)
      case Some(n) => Some((c, n))
      case None =>
        match bible
        case None => None
        case Some(b) =>
          match NextChapter(b, c)
          case Some(nc) => Some((nc, 1))
          case None => None
  }

  /** The multiplier loop: `k` steps, stopping early at the end of the Bible. */
  function NextVerseSteps(bible: Option<Bible>, c: Chapter, v: nat, k: nat): (r: (Chapter, nat))
    ensures k >= 1 ==> r.1 >= 1 || (v != 0 && NextVerseStep(bible, c, v).None?)
    decreases k
  {
    if k == 0 then (c, v)
    else match NextVerseStep(bible, c, v)
      case None => (c, v)
      case Some((c2, v2)) => NextVerseSteps(bible, c2, v2, k - 1)
  }

  /** `k + m` steps are `k` steps followed by `m` steps, also when the walk
      stops early. */
  lemma {:induction false} NextVerseStepsCompose(bible: Option<Bible>, c: Chapter, v: nat, k: nat, m: nat)
    ensures NextVerseSteps(bible, c, v, k + m)
         == NextVerseSteps(bible, NextVerseSteps(bible, c, v, k).0, NextVerseSteps(bible, c, v, k).1, m)
    decreases k
  {
    if k > 0 {
      var step := NextVerseStep(bible, c, v);
      if step.Some? {
        NextVerseStepsCompose(bible, step.value.0, step.value.1, k - 1, m);
      }
    }
  }

  /** Inside a chapter, `k` steps from verse `v` land on verse `v + k`. */
  lemma {:induction false} NextVerseStepsInChapter(bible: Option<Bible>, c: Chapter, v: nat, k: nat)
    requires 1 <= v && v + k <= |c.verses|
    ensures NextVerseSteps(bible, c, v, k) == (c, v + k)
    decreases k
  {
    if k > 0 {
      NextVerseStepsInChapter(bible, c, v + 1, k - 1);
    }
  }

  /** Moving forward from the heading first lands on verse 1. */
  lemma NextVerseFromHeading(bible: Option<Bible>, c: Chapter, k: nat)
    requires k >= 1
    ensures NextVerseSteps(bible, c, 0, k) == NextVerseSteps(bible, c, 1, k - 1)
  {
  }

  /** One step of previous-verse: heading or first verse to the previous
      chapter's last verse; the first verse of the Bible goes to its heading,
      and the heading of the Bible's first chapter stops the walk. */
  function PreviousVerseStep(bible: Option<Bible>, c: Chapter, v: nat): (r: Option<(Chapter, nat)>)
    ensures v > 1 ==> r == Some((c, v - 1))
    ensures r.None? ==> v == 0
  {
    var prev := match bible case Some(b) => PreviousChapter(b, c) case None => None;
    if v == 0 then
      match prev
      case Some(p) => Some((p, |p.verses|))
      case None => None
    else if v == 1 then
      match prev
      case Some(p) => Some((p, |p.verses|))
      case None => Some((c, 0))
    else
      // `get_previous_verse` of a verse above 1 is never `None`, so the
      // source's break on `None` is unreachable here.
      Some((c, PreviousVerse(c, v).value))
  }

  function PreviousVerseSteps(bible: Option<Bible>, c: Chapter, v: nat, k: nat): (r: (Chapter, nat))
    decreases k
  {
    if k == 0 then (c, v)
    else match PreviousVerseStep(bible, c, v)
      case None => (c, v)
      case Some((c2, v2)) => PreviousVerseSteps(bible, c2, v2, k - 1)
  }

  lemma {:induction false} PreviousVerseStepsCompose(bible: Option<Bible>, c: Chapter, v: nat, k: nat, m: nat)
    ensures PreviousVerseSteps(bible, c, v, k + m)
         == PreviousVerseSteps(bible, PreviousVerseSteps(bible, c, v, k).0, PreviousVerseSteps(bible, c, v, k).1, m)
    decreases k
  {
    if k > 0 {
      var step := PreviousVerseStep(bible, c, v);
      if step.Some? {
        PreviousVerseStepsCompose(bible, step.value.0, step.value.1, k - 1, m);
      }
    }
  }

  /** Inside a chapter, `k` steps back from verse `v` land on verse `v - k`
      while that stays at least 1. */
  lemma {:induction false} PreviousVerseStepsInChapter(bible: Option<Bible>, c: Chapter, v: nat, k: nat)
    requires k < v
    ensures PreviousVerseSteps(bible, c, v, k) == (c, v - k)
    decreases k
  {
    if k > 0 {
      PreviousVerseStepsInChapter(bible, c, v - 1, k - 1);
    }
  }

  /** Inside a chapter one step forward and one step back cancel out. */
  lemma NextThenPreviousVerse(bible: Option<Bible>, c: Chapter, v: nat)
    requires 1 <= v < |c.verses|
    ensures NextVerseSteps(bible, c, v, 1) == (c, v + 1)
    ensures PreviousVerseSteps(bible, c, v + 1, 1) == (c, v)
  {
  }

  /** `handle_next_verse_with_multiplier`: always a navigation when a chapter
      is set. */
  function NextVerseResult(s: AppState, k: nat): (r: I.InstructionResult)
    ensures r.Navigate? <==> s.currentChapter.Some?
    ensures s.currentChapter.None? ==> r == I.Failed("No current chapter")
  {
    match s.currentChapter
    case Some(c) =>
      var t := NextVerseSteps(s.currentBible, c, CurrentVerseOf(s), k);
      I.Navigate(VersePath(t.0, t.1))
    case None => I.Failed("No current chapter")
  }

  function PreviousVerseResult(s: AppState, k: nat): (r: I.InstructionResult)
    ensures r.Navigate? <==> s.currentChapter.Some?
    ensures s.currentChapter.None? ==> r == I.Failed("No current chapter")
  {
    match s.currentChapter
    case Some(c) =>
      var t := PreviousVerseSteps(s.currentBible, c, CurrentVerseOf(s), k);
      I.Navigate(VersePath(t.0, t.1))
    case None => I.Failed("No current chapter")
  }

  // ---------------------------------------------------------------------------
  // Chapter and book movement with a count

  function NextChapterResult(s: AppState, k: nat): (r: I.InstructionResult)
    ensures r.Navigate? <==> s.currentChapter.Some? && s.currentBible.Some?
                             && NthNextChapterPath(s.currentBible.value, s.currentChapter.value, k).Some?
    ensures r.Navigate? ==> Some(r.path) == NthNextChapterPath(s.currentBible.value, s.currentChapter.value, k)
  {
    match s.currentChapter
    case Some(c) =>
      (match s.currentBible
       case Some(b) =>
         (match NthNextChapterPath(b, c, k)
          case Some(p) => I.Navigate(p)
          case None => I.Failed("No next chapter available"))
       case None => I.Failed("No next chapter available"))
    case None => I.Failed("No current chapter")
  }

  function PreviousChapterResult(s: AppState, k: nat): (r: I.InstructionResult)
    ensures r.Navigate? <==> s.currentChapter.Some? && s.currentBible.Some?
                             && NthPreviousChapterPath(s.currentBible.value, s.currentChapter.value, k).Some?
    ensures r.Navigate? ==> Some(r.path) == NthPreviousChapterPath(s.currentBible.value, s.currentChapter.value, k)
  {
    match s.currentChapter
    case Some(c) =>
      (match s.currentBible
       case Some(b) =>
         (match NthPreviousChapterPath(b, c, k)
          case Some(p) => I.Navigate(p)
          case None => I.Failed("No previous chapter available"))
       case None => I.Failed("No previous chapter available"))
    case None => I.Failed("No current chapter")
  }

  /** `k` next-book jumps, stopping at the last book. */
  function NextBookSteps(bible: Option<Bible>, c: Chapter, k: nat): (r: Chapter)
    ensures k == 0 ==> r == c
    decreases k
  {
    if k == 0 then c
    else match (match bible case Some(b) => NextBook(b, c) case None => None)
      case Some(n) => NextBookSteps(bible, n, k - 1)
      case None => c
  }

  function PreviousBookSteps(bible: Option<Bible>, c: Chapter, k: nat): (r: Chapter)
    ensures k == 0 ==> r == c
    decreases k
  {
    if k == 0 then c
    else match (match bible case Some(b) => PreviousBook(b, c) case None => None)
      case Some(p) => PreviousBookSteps(bible, p, k - 1)
      case None => c
  }

  /** Every target of a book jump is the current chapter or a chapter of the
      Bible. */
  lemma {:induction false} NextBookStepsInBible(b: Bible, c: Chapter, k: nat)
    ensures var r := NextBookSteps(Some(b), c, k);
      r == c || exists i, j :: 0 <= i < |b.books| && 0 <= j < |b.books[i].chapters| && b.books[i].chapters[j] == r
    decreases k
  {
    if k > 0 {
      match NextBook(b, c)
      case Some(n) =>
        NextBookInBible(b, c);
        NextBookStepsInBible(b, n, k - 1);
      case None =>
    }
  }

  lemma NextBookInBible(b: Bible, c: Chapter)
    requires NextBook(b, c).Some?
    ensures exists i, j :: 0 <= i < |b.books| && 0 <= j < |b.books[i].chapters| && b.books[i].chapters[j] == NextBook(b, c).value
  {
    var pos := Locate(b, c).value;
    assert b.books[pos.0 + 1].chapters[0] == NextBook(b, c).value;
  }

  function NextBookResult(s: AppState, k: nat): (r: I.InstructionResult)
    ensures r.Navigate? <==> s.currentChapter.Some?
    ensures r.Navigate? ==> r.path == ToPath(NextBookSteps(s.currentBible, s.currentChapter.value, k))
  {
    match s.currentChapter
    case Some(c) => I.Navigate(ToPath(NextBookSteps(s.currentBible, c, k)))
    case None => I.Failed("No current chapter")
  }

  function PreviousBookResult(s: AppState, k: nat): (r: I.InstructionResult)
    ensures r.Navigate? <==> s.currentChapter.Some?
    ensures r.Navigate? ==> r.path == ToPath(PreviousBookSteps(s.currentBible, s.currentChapter.value, k))
  {
    match s.currentChapter
    case Some(c) => I.Navigate(ToPath(PreviousBookSteps(s.currentBible, c, k)))
    case None => I.Failed("No current chapter")
  }

  // ---------------------------------------------------------------------------
  // Selection

  function MinStart(rs: seq<VerseRange>): (m: nat)
    requires |rs| > 0
    ensures exists i :: 0 <= i < |rs| && rs[i].start == m
    ensures forall i :: 0 <= i < |rs| ==> m <= rs[i].start
  {
    if |rs| == 1 then rs[0].start
    else
      var rest := MinStart(rs[1..]);
      assert forall i :: 1 <= i < |rs| ==> rs[i] == rs[1..][i - 1];
      if rs[0].start <= rest then rs[0].start else rest
  }

  function MaxEnd(rs: seq<VerseRange>): (m: nat)
    requires |rs| > 0
    ensures exists i :: 0 <= i < |rs| && rs[i].end == m
    ensures forall i :: 0 <= i < |rs| ==> rs[i].end <= m
  {
    if |rs| == 1 then rs[0].end
    else
      var rest := MaxEnd(rs[1..]);
      assert forall i :: 1 <= i < |rs| ==> rs[i] == rs[1..][i - 1];
      if rs[0].end >= rest then rs[0].end else rest
  }

  /** The anchor and moving end of a forward extension: the lowest start and
      highest end of the selection, or the current verse (verse 1 from the
      heading). */
  function ForwardEnds(ranges: seq<VerseRange>, current: nat): (r: (nat, nat))
    ensures ranges == [] ==> r == (if current == 0 then (1, 1) else (current, current))
  {
    if ranges == [] then (if current == 0 then (1, 1) else (current, current))
    else (MinStart(ranges), MaxEnd(ranges))
  }

  /** The range a forward extension selects, or `None` when the moving end is
      already the last verse. */
  function ExtendForwardRange(c: Chapter, ranges: seq<VerseRange>, current: nat): (r: Option<VerseRange>)
    ensures r.None? <==> NextVerse(c, ForwardEnds(ranges, current).1).None?
    ensures r.Some? ==> r.value.start <= r.value.end
    ensures r.Some? ==> InRange(r.value, ForwardEnds(ranges, current).0)
    ensures r.Some? ==> InRange(r.value, ForwardEnds(ranges, current).1 + 1)
  {
    var (anchor, target) := ForwardEnds(ranges, current);
    match NextVerse(c, target)
    case None => None
    case Some(t) => Some(VerseRange(Min(anchor, t), Max(anchor, t)))
  }

  function ExtendSelectionNextResult(s: AppState): (r: I.InstructionResult)
    ensures r.Navigate? <==> (s.currentChapter.Some?
      && ExtendForwardRange(s.currentChapter.value, VerseRangesOf(s), CurrentVerseOf(s)).Some?)
    ensures r.Navigate? ==> r.path == ToPathWithVerses(s.currentChapter.value,
      [ExtendForwardRange(s.currentChapter.value, VerseRangesOf(s), CurrentVerseOf(s)).value])
  {
    match s.currentChapter
    case Some(c) =>
      (match ExtendForwardRange(c, VerseRangesOf(s), CurrentVerseOf(s))
       case Some(range) => I.Navigate(ToPathWithVerses(c, [range]))
       case None => I.Failed("Cannot extend selection beyond chapter"))
    case None => I.Failed("No current chapter")
  }

  /** The anchor and moving end of a backward extension: the highest end and
      lowest start of the selection, or the current verse (the last verse from
      the heading). */
  function BackwardEnds(c: Chapter, ranges: seq<VerseRange>, current: nat): (r: (nat, nat))
    ensures ranges == [] ==> r == (if current == 0 then (|c.verses|, |c.verses|) else (current, current))
  {
    if ranges == [] then (if current == 0 then (|c.verses|, |c.verses|) else (current, current))
    else (MaxEnd(ranges), MinStart(ranges))
  }

  /** The range a backward extension selects: `Err` with the source's message
      when the moving end is verse 1 or the heading. */
  function ExtendBackwardRange(c: Chapter, ranges: seq<VerseRange>, current: nat): (r: Result<VerseRange, string>)
    ensures r.Ok? <==> BackwardEnds(c, ranges, current).1 > 1
    ensures BackwardEnds(c, ranges, current).1 == 1 ==> r == Err("Cannot extend selection beyond chapter")
    ensures BackwardEnds(c, ranges, current).1 == 0 ==> r == Err("Invalid verse navigation")
    ensures r.Ok? ==> r.value.start <= r.value.end
    ensures r.Ok? ==> InRange(r.value, BackwardEnds(c, ranges, current).0)
    ensures r.Ok? ==> InRange(r.value, BackwardEnds(c, ranges, current).1 - 1)
  {
    var (anchor, target) := BackwardEnds(c, ranges, current);
    if target == 1 then Err("Cannot extend selection beyond chapter")
    else match PreviousVerse(c, target)
      case Some(t) => Ok(VerseRange(Min(anchor, t), Max(anchor, t)))
      case None => Err("Invalid verse navigation")
  }

  function ExtendSelectionPreviousResult(s: AppState): (r: I.InstructionResult)
    ensures r.Navigate? <==> (s.currentChapter.Some?
      && ExtendBackwardRange(s.currentChapter.value, VerseRangesOf(s), CurrentVerseOf(s)).Ok?)
    ensures r.Navigate? ==> r.path == ToPathWithVerses(s.currentChapter.value,
      [ExtendBackwardRange(s.currentChapter.value, VerseRangesOf(s), CurrentVerseOf(s)).value])
  {
    match s.currentChapter
    case Some(c) =>
      (match ExtendBackwardRange(c, VerseRangesOf(s), CurrentVerseOf(s))
       case Ok(range) => I.Navigate(ToPathWithVerses(c, [range]))
       case Err(message) => I.Failed(message))
    case None => I.Failed("No current chapter")
  }

  /** Extending forward from a single selected verse in the chapter selects
      that verse and the next one. */
  lemma ExtendForwardFromSingle(c: Chapter, v: nat)
    requires 1 <= v < |c.verses|
    ensures ExtendForwardRange(c, [VerseRange(v, v)], v) == Some(VerseRange(v, v + 1))
  {
    assert MinStart([VerseRange(v, v)]) == v && MaxEnd([VerseRange(v, v)]) == v;
  }

  /** Extending forward keeps every verse already selected and adds the
      verse after the selection's last one. */
  lemma ExtendForwardKeepsSelection(c: Chapter, ranges: seq<VerseRange>, current: nat, i: nat, v: nat)
    requires ExtendForwardRange(c, ranges, current).Some?
    requires i < |ranges| && InRange(ranges[i], v)
    ensures InRange(ExtendForwardRange(c, ranges, current).value, v)
    ensures ExtendForwardRange(c, ranges, current).value == VerseRange(MinStart(ranges), MaxEnd(ranges) + 1)
  {
  }

  /** Extending backward keeps every verse already selected and adds the
      verse before the selection's first one. */
  lemma ExtendBackwardKeepsSelection(c: Chapter, ranges: seq<VerseRange>, current: nat, i: nat, v: nat)
    requires ExtendBackwardRange(c, ranges, current).Ok?
    requires i < |ranges| && InRange(ranges[i], v)
    ensures InRange(ExtendBackwardRange(c, ranges, current).value, v)
    ensures ExtendBackwardRange(c, ranges, current).value == VerseRange(MinStart(ranges) - 1, MaxEnd(ranges))
  {
  }

  // ---------------------------------------------------------------------------
  // The dispatchers

  /** The instructions that only compute a navigation and leave the state as
      it is. */
  predicate IsNavigation(i: I.Instruction) {
    I.IsCountedMove(i) || i.BeginningOfChapter? || i.EndOfChapter? || i.GoToVerse?
    || i.ExtendSelectionNextVerse? || i.ExtendSelectionPreviousVerse?
  }

  /** The toggles and palette triggers, which both dispatchers handle. */
  predicate IsToggle(i: I.Instruction) {
    i.ToggleCommandPallate? || i.ToggleSidebar? || i.ToggleCrossReferences? || i.ToggleThemeSidebar?
    || i.ToggleTranslationComparison? || i.ToggleVerseVisibility? || i.NextPaletteResult?
    || i.PreviousPaletteResult?
  }

  /** The panel instructions only `execute` handles. */
  predicate IsCloseOrSelect(i: I.Instruction) {
    i.CloseCommandPalette? || i.CloseLeftSidebar? || i.CloseRightSidebar? || i.CloseThemeSidebar?
    || i.CloseTranslationComparison? || i.SelectBook? || i.ClearSelectedBook?
  }

  /** The navigation of a single (count 1) navigation instruction. */
  function NavigationResult(s: AppState, i: I.Instruction): (r: I.InstructionResult)
    requires IsNavigation(i)
    ensures i.NextVerse? ==> r == NextVerseResult(s, 1)
    ensures i.GoToVerse? ==> r == GoToVerseResult(s, i.verse)
    ensures i.EndOfChapter? ==> r == EndOfChapterResult(s)
    ensures r.Navigate? || r.Failed?
  {
    match i
    case NextVerse => NextVerseResult(s, 1)
    case PreviousVerse => PreviousVerseResult(s, 1)
    case NextChapter => NextChapterResult(s, 1)
    case PreviousChapter => PreviousChapterResult(s, 1)
    case NextBook => NextBookResult(s, 1)
    case PreviousBook => PreviousBookResult(s, 1)
    case BeginningOfChapter => BeginningOfChapterResult(s)
    case EndOfChapter => EndOfChapterResult(s)
    case GoToVerse(n) => GoToVerseResult(s, n)
    case ExtendSelectionNextVerse => ExtendSelectionNextResult(s)
    case ExtendSelectionPreviousVerse => ExtendSelectionPreviousResult(s)
  }

  /** The state after a toggle or palette trigger. */
  function ToggleStep(s: AppState, i: I.Instruction): (r: AppState)
    requires IsToggle(i)
    ensures PanelsExclusive(s) ==> PanelsExclusive(r)
    ensures r.currentChapter == s.currentChapter && r.searchParams == s.searchParams
    ensures r.previousChapterPath == s.previousChapterPath && r.selectedBook == s.selectedBook
  {
    match i
    case ToggleCommandPallate => TogglePalette(s)
    case ToggleSidebar => ToggleLeftSidebar(s)
    case ToggleCrossReferences => ToggleRightSidebar(s)
    case ToggleThemeSidebar => ToggleThemeSidebar(s)
    case ToggleTranslationComparison => ToggleComparison(s)
    case ToggleVerseVisibility => ToggleVerseVisibility(s)
    case NextPaletteResult => s.(nextPaletteTrigger := !s.nextPaletteTrigger)
    case PreviousPaletteResult => s.(previousPaletteTrigger := !s.previousPaletteTrigger)
  }

  /** The state after closing a panel or choosing a book: exactly one field
      changes. */
  function CloseOrSelectStep(s: AppState, i: I.Instruction): (r: AppState)
    requires IsCloseOrSelect(i)
    ensures i.CloseLeftSidebar? ==> r == s.(leftSidebarOpen := false)
    ensures i.CloseRightSidebar? ==> r == s.(rightSidebarOpen := false)
    ensures i.CloseThemeSidebar? ==> r == s.(themeSidebarOpen := false)
    ensures i.CloseTranslationComparison? ==> r == s.(comparisonOpen := false)
    ensures i.CloseCommandPalette? ==> r == s.(paletteOpen := false)
    ensures i.SelectBook? ==> r == s.(selectedBook := i.name)
    ensures i.ClearSelectedBook? ==> r == s.(selectedBook := "")
  {
    match i
    case CloseCommandPalette => s.(paletteOpen := false)
    case CloseLeftSidebar => s.(leftSidebarOpen := false)
    case CloseRightSidebar => s.(rightSidebarOpen := false)
    case CloseThemeSidebar => s.(themeSidebarOpen := false)
    case CloseTranslationComparison => s.(comparisonOpen := false)
    case SelectBook(name) => s.(selectedBook := name)
    case ClearSelectedBook => s.(selectedBook := "")
  }

  /** `execute`. `mobile` stands for the screen-width query, and `random` for
      the path the random verse or chapter generator produced, if any. */
  function Execute(s: AppState, i: I.Instruction, mobile: bool, random: Option<string>): (r: (AppState, I.InstructionResult))
    ensures PanelsExclusive(s) ==> PanelsExclusive(r.0)
    ensures IsNavigation(i) ==> r == (s, NavigationResult(s, i))
    ensures IsToggle(i) ==> r == (ToggleStep(s, i), I.Handled)
  {
    if IsNavigation(i) then (s, NavigationResult(s, i))
    else if IsToggle(i) then (ToggleStep(s, i), I.Handled)
    else if IsCloseOrSelect(i) then (CloseOrSelectStep(s, i), I.Handled)
    else OtherStep(s, i, mobile, random)
  }

  /** The rest of `execute`: chapter choice, switching back, pages and chance. */
  function OtherStep(s: AppState, i: I.Instruction, mobile: bool, random: Option<string>): (r: (AppState, I.InstructionResult))
    ensures PanelsExclusive(s) ==> PanelsExclusive(r.0)
  {
    match i
    case GoToChapter(path) => (if mobile then s.(leftSidebarOpen := false) else s, I.Navigate(path))
    case SwitchToPreviousChapter => SwitchToPreviousChapterStep(s)
    case OpenGithubRepository => (s, I.Handled)
    case OpenAboutPage => (s, I.Navigate("/about"))
    case ShowTranslations => (s, I.Navigate("/?choose=true"))
    case RandomVerse =>
      (s, match random case Some(p) => I.Navigate(p) case None => I.Failed("No verses available"))
    case RandomChapter =>
      (s, match random case Some(p) => I.Navigate(p) case None => I.Failed("No chapters available"))
    case _ => (s, I.NotHandled)
  }

  /** Closing a panel or choosing a book changes that one field. */
  lemma ExecuteCloseOrSelect(s: AppState, i: I.Instruction, mobile: bool, random: Option<string>)
    requires IsCloseOrSelect(i)
    ensures Execute(s, i, mobile, random) == (CloseOrSelectStep(s, i), I.Handled)
  {
    assert !IsNavigation(i) && !IsToggle(i);
  }

  /** Going to a chapter navigates there and, on a small screen, closes the
      book list. */
  lemma ExecuteGoToChapter(s: AppState, path: string, mobile: bool, random: Option<string>)
    ensures Execute(s, I.GoToChapter(path), mobile, random).1 == I.Navigate(path)
    ensures Execute(s, I.GoToChapter(path), mobile, random).0.leftSidebarOpen == (s.leftSidebarOpen && !mobile)
  {
  }

  /** Switching back goes through its handler. */
  lemma ExecuteSwitch(s: AppState, mobile: bool, random: Option<string>)
    ensures Execute(s, I.SwitchToPreviousChapter, mobile, random) == SwitchToPreviousChapterStep(s)
  {
    var i := I.SwitchToPreviousChapter;
    assert !IsNavigation(i) && !IsToggle(i) && !IsCloseOrSelect(i);
  }

  /** The random jumps navigate exactly when the generator found a target. */
  lemma ExecuteRandom(s: AppState, i: I.Instruction, mobile: bool, random: Option<string>)
    requires i.RandomVerse? || i.RandomChapter?
    ensures Execute(s, i, mobile, random).1.Navigate? <==> random.Some?
    ensures Execute(s, i, mobile, random).0 == s
  {
    assert !IsNavigation(i) && !IsToggle(i) && !IsCloseOrSelect(i);
  }

  /** `execute_with_multiplier`: the counted moves take the count, everything
      else is executed once. */
  function ExecuteWithMultiplier(s: AppState, i: I.Instruction, k: nat, mobile: bool, random: Option<string>)
    : (r: (AppState, I.InstructionResult))
    ensures !I.IsCountedMove(i) ==> r == Execute(s, i, mobile, random)
    ensures I.IsCountedMove(i) ==> r.0 == s
    ensures I.IsCountedMove(i) && k == 1 ==> r == Execute(s, i, mobile, random)
  {
    match i
    case NextVerse => (s, NextVerseResult(s, k))
    case PreviousVerse => (s, PreviousVerseResult(s, k))
    case NextChapter => (s, NextChapterResult(s, k))
    case PreviousChapter => (s, PreviousChapterResult(s, k))
    case NextBook => (s, NextBookResult(s, k))
    case PreviousBook => (s, PreviousBookResult(s, k))
    case _ => Execute(s, i, mobile, random)
  }

  /** The instructions `apply_instruction` handles itself. */
  predicate AppliedDirectly(i: I.Instruction) {
    IsNavigation(i) || IsToggle(i) || i.SwitchToPreviousChapter?
  }

  /** `apply_instruction`: the same handlers, and `NotHandled` for everything
      that needs the page (closing panels, pages, chance, copying, exports). */
  function ApplyInstruction(s: AppState, i: I.Instruction): (r: (AppState, I.InstructionResult))
    ensures !AppliedDirectly(i) ==> r == (s, I.NotHandled)
    ensures PanelsExclusive(s) ==> PanelsExclusive(r.0)
  {
    if IsNavigation(i) then (s, NavigationResult(s, i))
    else if IsToggle(i) then (ToggleStep(s, i), I.Handled)
    else if i.SwitchToPreviousChapter? then SwitchToPreviousChapterStep(s)
    else (s, I.NotHandled)
  }

  /** The two dispatchers agree on every instruction `apply_instruction`
      handles itself, whatever the screen and the random generator. */
  lemma ApplyAgreesWithExecute(s: AppState, i: I.Instruction, mobile: bool, random: Option<string>)
    requires AppliedDirectly(i)
    ensures ApplyInstruction(s, i) == Execute(s, i, mobile, random)
  {
  }

  function ApplyInstructionWithMultiplier(s: AppState, i: I.Instruction, k: nat): (r: (AppState, I.InstructionResult))
    ensures !I.IsCountedMove(i) ==> r == ApplyInstruction(s, i)
    ensures I.IsCountedMove(i) ==> r == ExecuteWithMultiplier(s, i, k, false, None)
  {
    match i
    case NextVerse => (s, NextVerseResult(s, k))
    case PreviousVerse => (s, PreviousVerseResult(s, k))
    case NextChapter => (s, NextChapterResult(s, k))
    case PreviousChapter => (s, PreviousChapterResult(s, k))
    case NextBook => (s, NextBookResult(s, k))
    case PreviousBook => (s, PreviousBookResult(s, k))
    case _ => ApplyInstruction(s, i)
  }
}
