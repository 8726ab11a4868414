/** The translation comparison panel: the translations ticked for comparison,
    the verses of the current chapter each of them shows (those inside the
    selected ranges), the names the panel prints, and the label listing the
    selected ranges. */
module TranslationComparison {
  import opened Wrappers
  import opened Strings
  import opened Lists
  import opened BibleCore
  import opened QueryParams
  import opened SiteStorage

  // ---------------------------------------------------------------------------
  // Selecting translations

  /** Ticking a checkbox: a selected key is removed (every occurrence), any
      other key is appended. */
  function ToggleSelection(selected: seq<string>, key: string): (r: seq<string>)
    ensures key in r <==> key !in selected
    ensures forall x :: x != key ==> (x in r <==> x in selected)
  {
    if key in selected then Retain(selected, t => t != key) else selected + [key]
  }

  /** Ticking a box twice restores which keys are selected, and gives the very
      list back when the key was not selected before. */
  lemma ToggleTwice(selected: seq<string>, key: string)
    ensures forall x :: x in ToggleSelection(ToggleSelection(selected, key), key) <==> x in selected
    ensures key !in selected ==> ToggleSelection(ToggleSelection(selected, key), key) == selected
  {
    if key !in selected {
      var keep := t => t != key;
      RetainAppend(selected, [key], keep);
      RetainAll(selected, keep);
      assert Retain([key], keep) == [];
    }
  }

  /** The selection never lists a key twice. */
  lemma ToggleDistinct(selected: seq<string>, key: string)
    requires Distinct(selected)
    ensures Distinct(ToggleSelection(selected, key))
  {
    if key in selected {
      RetainDistinct(selected, t => t != key);
    }
  }

  // ---------------------------------------------------------------------------
  // Names

  /** The first translation of the catalogue with the given short name. */
  function FindTranslation(catalogue: seq<BibleTranslation>, key: string): (r: Option<nat>)
    ensures r.Some? ==> r.value < |catalogue| && catalogue[r.value].shortName == key
    ensures r.Some? ==> forall j :: 0 <= j < r.value ==> catalogue[j].shortName != key
    ensures r.None? <==> forall j :: 0 <= j < |catalogue| ==> catalogue[j].shortName != key
    decreases |catalogue|
  {
    if |catalogue| == 0 then None
    else if catalogue[0].shortName == key then Some(0)
    else
      match FindTranslation(catalogue[1..], key)
      case Some(i) => assert catalogue[i + 1] == catalogue[1..][i]; Some(i + 1)
      case None =>
        assert forall j :: 1 <= j < |catalogue| ==> catalogue[j] == catalogue[1..][j - 1];
        None
  }

  /** The heading of a translation's column: its full name, or the key itself
      when the catalogue does not know it. */
  function ComparisonName(catalogue: seq<BibleTranslation>, key: string): (r: string)
    ensures (forall j :: 0 <= j < |catalogue| ==> catalogue[j].shortName != key) ==> r == key
    ensures forall j :: (0 <= j < |catalogue| && catalogue[j].shortName == key
                        && forall k :: 0 <= k < j ==> catalogue[k].shortName != key)
                        ==> r == catalogue[j].name
  {
    match FindTranslation(catalogue, key)
    case Some(i) => catalogue[i].name
    case None => key
  }

  /** The label of a checkbox: `name (short name)`, or the key itself. */
  function CheckboxLabel(catalogue: seq<BibleTranslation>, key: string): (r: string)
    ensures (forall j :: 0 <= j < |catalogue| ==> catalogue[j].shortName != key) ==> r == key
    ensures forall j :: (0 <= j < |catalogue| && catalogue[j].shortName == key
                        && forall k :: 0 <= k < j ==> catalogue[k].shortName != key)
                        ==> r == catalogue[j].name + " (" + key + ")"
  {
    match FindTranslation(catalogue, key)
    case Some(i) => catalogue[i].name + " (" + catalogue[i].shortName + ")"
    case None => key
  }

  /** A known translation's checkbox label starts with its column heading and
      ends with its key in parentheses. */
  lemma CheckboxLabelOfKnown(catalogue: seq<BibleTranslation>, key: string)
    requires exists j :: 0 <= j < |catalogue| && catalogue[j].shortName == key
    ensures CheckboxLabel(catalogue, key) == ComparisonName(catalogue, key) + " (" + key + ")"
  {
  }

  // ---------------------------------------------------------------------------
  // Filtering verses

  predicate InAnyRange(ranges: seq<VerseRange>, v: nat) {
    exists i :: 0 <= i < |ranges| && InRange(ranges[i], v)
  }

  /** The verses a column shows: those whose number lies in some selected
      range, in chapter order. */
  function FilterVerses(verses: seq<Verse>, ranges: seq<VerseRange>): (r: seq<Verse>)
    ensures |r| <= |verses|
    ensures forall v :: v in r <==> v in verses && InAnyRange(ranges, v.verse)
  {
    Retain(verses, (v: Verse) => InAnyRange(ranges, v.verse))
  }

  predicate Ascending(verses: seq<Verse>) {
    Pairwise(verses, (a: Verse, b: Verse) => a.verse < b.verse)
  }

  /** Filtering keeps the chapter's verse order. */
  lemma FilterKeepsOrder(verses: seq<Verse>, ranges: seq<VerseRange>)
    requires Ascending(verses)
    ensures Ascending(FilterVerses(verses, ranges))
  {
    RetainPairs(verses, (v: Verse) => InAnyRange(ranges, v.verse), (a: Verse, b: Verse) => a.verse < b.verse);
  }

  /** With no ranges selected a column is empty; with a range covering the
      whole chapter it shows every verse. */
  lemma FilterVersesBounds(verses: seq<Verse>, ranges: seq<VerseRange>)
    ensures ranges == [] ==> FilterVerses(verses, ranges) == []
    ensures (forall i :: 0 <= i < |verses| ==> InAnyRange(ranges, verses[i].verse))
      ==> FilterVerses(verses, ranges) == verses
  {
    if ranges == [] {
      RetainNone(verses, (v: Verse) => InAnyRange(ranges, v.verse));
    }
    if forall i :: 0 <= i < |verses| ==> InAnyRange(ranges, verses[i].verse) {
      RetainAll(verses, (v: Verse) => InAnyRange(ranges, v.verse));
    }
  }

  // ---------------------------------------------------------------------------
  // Loading the comparison

  datatype ComparisonData = ComparisonData(translationName: string, verses: seq<Verse>)

  /** The column of one selected translation, when its chapter loads.
      `chapterOf` stands for loading the downloaded translation and looking up
      the current chapter in it. */
  function Column(catalogue: seq<BibleTranslation>, chapterOf: string -> Option<Chapter>,
                  ranges: seq<VerseRange>, key: string): Option<ComparisonData>
  {
    match chapterOf(key)
    case Some(c) => Some(ComparisonData(ComparisonName(catalogue, key), FilterVerses(c.verses, ranges)))
    case None => None
  }

  /** The columns of the panel: one per selected translation, in selection
      order, skipping those whose chapter could not be loaded. */
  function Compare(selected: seq<string>, catalogue: seq<BibleTranslation>,
                   chapterOf: string -> Option<Chapter>, ranges: seq<VerseRange>): (r: seq<ComparisonData>)
    ensures |r| <= |selected|
  {
    Somes(Columns(selected, catalogue, chapterOf, ranges))
  }

  function Columns(selected: seq<string>, catalogue: seq<BibleTranslation>,
                   chapterOf: string -> Option<Chapter>, ranges: seq<VerseRange>): (r: seq<Option<ComparisonData>>)
    ensures |r| == |selected|
    ensures forall i :: 0 <= i < |selected| ==> r[i] == Column(catalogue, chapterOf, ranges, selected[i])
  {
    seq(|selected|, i requires 0 <= i < |selected| => Column(catalogue, chapterOf, ranges, selected[i]))
  }

  /** A column is shown exactly when some selected translation's chapter loads
      and the column carries that translation's heading and filtered verses. */
  lemma CompareMembers(selected: seq<string>, catalogue: seq<BibleTranslation>,
                       chapterOf: string -> Option<Chapter>, ranges: seq<VerseRange>, d: ComparisonData)
    ensures d in Compare(selected, catalogue, chapterOf, ranges) <==>
      exists i :: 0 <= i < |selected| && chapterOf(selected[i]).Some?
        && d == ComparisonData(ComparisonName(catalogue, selected[i]),
                               FilterVerses(chapterOf(selected[i]).value.verses, ranges))
  {
    SomesMembers(Columns(selected, catalogue, chapterOf, ranges), d);
  }

  /** When every selected chapter loads, the i-th column belongs to the i-th
      selected translation. */
  lemma CompareAllLoaded(selected: seq<string>, catalogue: seq<BibleTranslation>,
                         chapterOf: string -> Option<Chapter>, ranges: seq<VerseRange>)
    requires forall i :: 0 <= i < |selected| ==> chapterOf(selected[i]).Some?
    ensures var r := Compare(selected, catalogue, chapterOf, ranges);
      |r| == |selected| && forall i :: 0 <= i < |selected| ==>
        r[i] == ComparisonData(ComparisonName(catalogue, selected[i]),
                               FilterVerses(chapterOf(selected[i]).value.verses, ranges))
  {
    var xs := seq(|selected|, i requires 0 <= i < |selected| =>
      ComparisonData(ComparisonName(catalogue, selected[i]), FilterVerses(chapterOf(selected[i]).value.verses, ranges)));
    SomesAll(Columns(selected, catalogue, chapterOf, ranges), xs);
  }

  // ---------------------------------------------------------------------------
  // The label of the selected ranges

  /** `format_verse_ranges`: `"5"`, `"1-3"`, `"1-3, 5, 10-12"`. */
  function FormatVerseRanges(ranges: seq<VerseRange>): (r: string)
    ensures ranges == [] <==> r == ""
  {
    if |ranges| == 0 then ""
    else
      RangeTextNonEmpty(ranges[0]);
      Join(RangeTexts(ranges), ", ")
  }

  lemma RangeTextNonEmpty(r: VerseRange)
    ensures RangeText(r) != ""
  {
    assert AllDigits(NatToString(r.start)) && NatToString(r.start) != "";
  }

  /** The pieces of the label between its commas: the first range's text, then
      every other range's text after a space. */
  function LabelPieces(ranges: seq<VerseRange>): (r: seq<string>)
    ensures |r| == |ranges|
  {
    seq(|ranges|, i requires 0 <= i < |ranges| => if i == 0 then RangeText(ranges[0]) else " " + RangeText(ranges[i]))
  }

  /** Joining with `", "` is joining the space-prefixed texts with `","`. */
  lemma {:induction false} JoinSpaced(texts: seq<string>)
    requires |texts| >= 1
    ensures " " + Join(texts, ", ") == Join(seq(|texts|, i requires 0 <= i < |texts| => " " + texts[i]), ",")
    decreases |texts|
  {
    var spaced := seq(|texts|, i requires 0 <= i < |texts| => " " + texts[i]);
    if |texts| > 1 {
      var tail := texts[1..];
      JoinSpaced(tail);
      assert spaced[1..] == seq(|tail|, i requires 0 <= i < |tail| => " " + tail[i]);
    }
  }

  lemma LabelJoin(ranges: seq<VerseRange>)
    requires |ranges| >= 1
    ensures FormatVerseRanges(ranges) == Join(LabelPieces(ranges), ",")
  {
    var texts := RangeTexts(ranges);
    var pieces := LabelPieces(ranges);
    if |ranges| > 1 {
      var tail := texts[1..];
      JoinSpaced(tail);
      assert pieces[1..] == seq(|tail|, i requires 0 <= i < |tail| => " " + tail[i]);
    }
  }

  /** A leading space is trimmed away. */
  lemma Regroup(p: string, a: string, q: string, b: string)
    ensures p + (a + q + b) == (p + a) + q + b
  {
  }

  /** A range's text after a space still parses as the range. */
  lemma FromStringSpaced(r: VerseRange)
    requires ValidRange(r)
    ensures FromString(" " + RangeText(r)) == Some(r)
  {
    if r.start == r.end {
      SpacedNumber(r.start);
    } else {
      SpacedPair(r.start, r.end);
    }
  }

  lemma SpacedNumber(n: nat)
    requires n < U32_LIMIT
    ensures FromString(" " + NatToString(n)) == Some(VerseRange(n, n))
  {
    var a := NatToString(n);
    ParseTrimmedNumber(n);
    TrimLeadingSpace(a);
    assert '-' !in " " + a;
  }

  lemma SpacedPair(m: nat, n: nat)
    requires m < n < U32_LIMIT
    ensures FromString(" " + (NatToString(m) + "-" + NatToString(n))) == Some(VerseRange(m, n))
  {
    var a := NatToString(m);
    var b := NatToString(n);
    ParseTrimmedNumber(m);
    ParseTrimmedNumber(n);
    TrimLeadingSpace(a);
    var t := " " + (a + "-" + b);
    Regroup(" ", a, "-", b);
    SplitOnceFirst(" " + a, '-', b);
    assert SplitOnce(t, '-') == Some((" " + a, b));
    assert ParseU32(Trim(" " + a)) == Some(m);
  }

  /** The label, read as the value of a `verses=` parameter, gives the selected
      ranges back: the parser's splitting on `,` and trimming of each piece
      undo the `", "` joining. */
  lemma LabelRoundTrip(ranges: seq<VerseRange>)
    requires forall i :: 0 <= i < |ranges| ==> ValidRange(ranges[i])
    ensures FilterRanges(Split(FormatVerseRanges(ranges), ',')) == ranges
  {
    if |ranges| == 0 {
      SplitNoSep("", ',');
      assert Split("", ',') == [""];
      assert Parses([""]) == [None];
    } else {
      var pieces := LabelPieces(ranges);
      LabelJoin(ranges);
      forall i | 0 <= i < |pieces| ensures ',' !in pieces[i] && Parses(pieces)[i] == Some(ranges[i]) {
        RangeTextChars(ranges[i]);
        if i == 0 {
          FromStringRangeText(ranges[0]);
        } else {
          FromStringSpaced(ranges[i]);
        }
      }
      SplitJoin(pieces, ',');
      SomesAll(Parses(pieces), ranges);
    }
  }
}
