/** The `verses=` query parameter of a chapter URL, read the three ways the
    reader reads it: `parse_verse_ranges_from_url` in the core, and
    `get_current_verse` / `get_verse_ranges`, which the view state and the
    instruction processor define identically. A query string is the search part
    of the URL without its leading `?`. */
module QueryParams {
  import opened Wrappers
  import opened Strings
  import opened BibleCore

  const VersesKey := "verses="

  /** The value of one `key=value` parameter whose key is exactly `verses`: the
      second `=`-separated piece. */
  function VersesValue(param: string): (r: Option<string>)
    ensures r.Some? ==> '=' !in r.value
  {
    var parts := Split(param, '=');
    if parts[0] == "verses" && |parts| >= 2 then Some(parts[1]) else None
  }

  /** A parameter carries a `verses` value exactly when it starts with
      `verses=`; the value runs up to the next `=`. */
  lemma VersesValueOfPrefix(param: string)
    ensures VersesValue(param).Some? <==> StartsWith(param, VersesKey)
    ensures StartsWith(param, VersesKey) ==> VersesValue(param) == Some(Split(param[7..], '=')[0])
  {
    if StartsWith(param, VersesKey) {
      VersesValueOfStart(param);
    }
    VersesValueStarts(param);
  }

  lemma VersesValueOfStart(param: string)
    requires StartsWith(param, VersesKey)
    ensures VersesValue(param) == Some(Split(param[7..], '=')[0])
  {
    var head, rest := param[..6], param[7..];
    assert head == "verses" by {
      assert param[..7] == VersesKey;
    }
    assert param == head + [param[6]] + rest;
    SplitConcat(head, '=', rest);
  }

  lemma VersesValueStarts(param: string)
    ensures VersesValue(param).Some? ==> StartsWith(param, VersesKey)
  {
    var parts := Split(param, '=');
    if parts[0] == "verses" && |parts| >= 2 {
      assert param == parts[0] + "=" + Join(parts[1..], "=") by {
        assert param == Join(parts, "=");
      }
      assert param[..7] == VersesKey;
    }
  }

  /** A parameter with a `verses` value: by `VersesValueOfPrefix`, exactly one
      that starts with `verses=`. */
  predicate IsVersesParam(param: string) {
    StartsWith(param, VersesKey)
  }

  /** The index of the first parameter with a `verses` value. */
  function FirstVersesIndex(params: seq<string>): (r: Option<nat>)
    ensures r.Some? ==> r.value < |params| && IsVersesParam(params[r.value])
    ensures r.Some? ==> forall j :: 0 <= j < r.value ==> !IsVersesParam(params[j])
    ensures r.None? ==> forall j :: 0 <= j < |params| ==> !IsVersesParam(params[j])
  {
    if |params| == 0 then None
    else if IsVersesParam(params[0]) then Some(0)
    else
      var rest := params[1..];
      assert forall j :: 0 < j < |params| ==> params[j] == rest[j - 1];
      match FirstVersesIndex(rest)
      case None => None
      case Some(i) => Some(i + 1)
  }

  /** `find_map` over the `&`-separated parameters: the first `verses` value. */
  function FirstVersesValue(params: seq<string>): (r: Option<string>)
    ensures r.None? <==> forall i :: 0 <= i < |params| ==> !IsVersesParam(params[i])
  {
    match FirstVersesIndex(params)
    case Some(i) => VersesValueOfPrefix(params[i]); VersesValue(params[i])
    case None => None
  }

  /** `filter_map(VerseRange::from_string)`: the pieces that parse, in order. */
  function FilterRanges(pieces: seq<string>): (r: seq<VerseRange>)
    ensures |r| <= |pieces|
  {
    Somes(Parses(pieces))
  }

  function Parses(pieces: seq<string>): (r: seq<Option<VerseRange>>)
    ensures |r| == |pieces| && forall i :: 0 <= i < |pieces| ==> r[i] == FromString(pieces[i])
  {
    seq(|pieces|, i requires 0 <= i < |pieces| => FromString(pieces[i]))
  }

  /** A range is kept exactly when some piece parses to it. */
  lemma FilterRangesMembers(pieces: seq<string>, v: VerseRange)
    ensures v in FilterRanges(pieces) <==> exists i :: 0 <= i < |pieces| && FromString(pieces[i]) == Some(v)
  {
    SomesMembers(Parses(pieces), v);
  }

  /** `parse_verse_ranges_from_url` (core): the ranges of the first `verses`
      parameter, or none. */
  function ParseVerseRangesFromUrl(query: string): (r: seq<VerseRange>)
  {
    match FirstVersesValue(Split(query, '&'))
    case Some(value) => FilterRanges(Split(value, ','))
    case None => []
  }

  /** `get_verse_ranges` (view state and processor): the same, behind a
      `contains("verses=")` guard. */
  function VerseRanges(query: string): (r: seq<VerseRange>)
    ensures !Contains(query, VersesKey) ==> r == []
  {
    if Contains(query, VersesKey) then
      match FirstVersesValue(Split(query, '&'))
      case Some(value) => FilterRanges(Split(value, ','))
      case None => []
    else []
  }

  /** The guard is redundant: a `verses` parameter always contains `verses=`,
      so both readers give the same ranges for every query. */
  lemma VerseRangesAgree(query: string)
    ensures VerseRanges(query) == ParseVerseRangesFromUrl(query)
  {
    var params := Split(query, '&');
    if FirstVersesIndex(params).Some? {
      var i := FirstVersesIndex(params).value;
      VersesValueOfPrefix(params[i]);
      assert OccursAt(params[i], VersesKey, 0);
      JoinContains(params, "&", i, VersesKey);
    }
  }

  /** `split("verses=").nth(1)`: the text between the first `verses=` and the
      next one (or the end), or `None` without a `verses=`. */
  function VersesSegment(query: string): (r: Option<string>)
    ensures r.None? <==> !Contains(query, VersesKey)
    ensures r.Some? ==> |r.value| + |VersesKey| <= |query|
  {
    FindContains(query, VersesKey);
    match Find(query, VersesKey)
    case None => None
    case Some(i) =>
      var after := query[i + |VersesKey|..];
      Some(match Find(after, VersesKey) case Some(j) => after[..j] case None => after)
  }

  /** Behind `verses=`, a value that cannot hold another `verses=` is the
      segment. */
  lemma VersesSegmentOfParam(p: string)
    requires 'v' !in p
    ensures VersesSegment(VersesKey + p) == Some(p)
  {
    var q := VersesKey + p;
    assert OccursAt(q, VersesKey, 0);
    assert Find(q, VersesKey) == Some(0);
    assert q[7..] == p;
    FindAbsent(p, VersesKey);
  }

  /** `get_current_verse`: 0 when there is no `verses=`; otherwise the number
      before the first `-` of the first range of the segment, or 1 when that
      text is not a number. */
  function CurrentVerse(query: string): (r: nat)
    ensures !Contains(query, VersesKey) ==> r == 0
    ensures r < U32_LIMIT
  {
    match VersesSegment(query)
    case None => 0
    case Some(piece) =>
      var first := Split(Split(Split(piece, '&')[0], ',')[0], '-')[0];
      ParseU32(first).GetOr(1)
  }

  // ---------------------------------------------------------------------------
  // Round trips with the URL builder

  predicate IsParamChar(c: char) {
    IsDigit(c) || c == '-' || c == ','
  }

  function RangeTexts(rs: seq<VerseRange>): (r: seq<string>)
    ensures |r| == |rs|
  {
    seq(|rs|, i requires 0 <= i < |rs| => RangeText(rs[i]))
  }

  lemma RangeTextChars(r: VerseRange)
    ensures forall j :: 0 <= j < |RangeText(r)| ==> IsParamChar(RangeText(r)[j]) && RangeText(r)[j] != ','
  {
    var a := NatToString(r.start);
    var b := NatToString(r.end);
    assert AllDigits(a) && AllDigits(b);
    if r.start != r.end {
      var t := a + "-" + b;
      forall j | 0 <= j < |t| ensures IsParamChar(t[j]) && t[j] != ',' {
        if j < |a| {
          assert t[j] == a[j];
        } else if j > |a| {
          assert t[j] == b[j - |a| - 1];
        }
      }
    }
  }

  /** A `verses=` value built from ranges holds only digits, `-` and `,`. */
  lemma RangesParamChars(rs: seq<VerseRange>)
    ensures forall j :: 0 <= j < |RangesParam(rs)| ==> IsParamChar(RangesParam(rs)[j])
  {
    var texts := RangeTexts(rs);
    forall i, j | 0 <= i < |texts| && 0 <= j < |texts[i]| ensures IsParamChar(texts[i][j]) {
      RangeTextChars(rs[i]);
    }
    assert RangesParam(rs) == Join(texts, ",");
    JoinChars(texts, ",", IsParamChar);
  }

  lemma FilterRangeTexts(rs: seq<VerseRange>)
    requires forall i :: 0 <= i < |rs| ==> ValidRange(rs[i])
    ensures FilterRanges(RangeTexts(rs)) == rs
  {
    var texts := RangeTexts(rs);
    forall i | 0 <= i < |rs| ensures Parses(texts)[i] == Some(rs[i]) {
      FromStringRangeText(rs[i]);
    }
    SomesAll(Parses(texts), rs);
  }

  /** Splitting a built `verses=` value on `,` gives one text per range. */
  lemma SplitRangesParam(rs: seq<VerseRange>)
    requires |rs| > 0
    ensures Split(RangesParam(rs), ',') == RangeTexts(rs)
  {
    var texts := RangeTexts(rs);
    forall i | 0 <= i < |texts| ensures ',' !in texts[i] {
      RangeTextChars(rs[i]);
    }
    SplitJoin(texts, ',');
  }

  lemma QueryChars(rs: seq<VerseRange>)
    ensures '&' !in VersesKey + RangesParam(rs)
    ensures '=' !in RangesParam(rs) && 'v' !in RangesParam(rs) && '&' !in RangesParam(rs)
  {
    RangesParamChars(rs);
  }

  /** The query the URL builder writes for a selection reads back as that
      selection, and its current verse is the start of the first range. */
  lemma QueryRoundTrip(rs: seq<VerseRange>)
    requires forall i :: 0 <= i < |rs| ==> ValidRange(rs[i])
    ensures VerseRanges(VersesKey + RangesParam(rs)) == rs
    ensures |rs| > 0 ==> CurrentVerse(VersesKey + RangesParam(rs)) == rs[0].start
  {
    var p := RangesParam(rs);
    var q := VersesKey + p;
    QueryChars(rs);
    assert OccursAt(q, VersesKey, 0);
    SplitNoSep(q, '&');
    VersesValueOfPrefix(q);
    assert q[7..] == p;
    SplitNoSep(p, '=');
    assert FirstVersesValue([q]) == Some(p);
    if |rs| == 0 {
      assert Split(p, ',') == [""];
      assert FilterRanges([""]) == [];
    } else {
      SplitRangesParam(rs);
      FilterRangeTexts(rs);
      CurrentVerseOfParam(rs);
    }
  }

  lemma CurrentVerseOfParam(rs: seq<VerseRange>)
    requires |rs| > 0 && forall i :: 0 <= i < |rs| ==> ValidRange(rs[i])
    ensures CurrentVerse(VersesKey + RangesParam(rs)) == rs[0].start
  {
    var p := RangesParam(rs);
    var q := VersesKey + p;
    QueryChars(rs);
    VersesSegmentOfParam(p);
    SplitNoSep(p, '&');
    SplitRangesParam(rs);
    var a := NatToString(rs[0].start);
    ParseTrimmedNumber(rs[0].start);
    if rs[0].start == rs[0].end {
      SplitNoSep(a, '-');
    } else {
      SplitConcat(a, '-', NatToString(rs[0].end));
      assert RangeText(rs[0]) == a + ['-'] + NatToString(rs[0].end);
    }
    ParseNatToString(rs[0].start);
  }
}
