/** Vim-style key handling (site/src/instructions/vim_keys.rs): key names in
    vim syntax (`<C-k>`, `<S-G>`, `gg`), a table from those names to
    instruction names, and the mapper that turns key presses into an
    instruction and a count, buffering count digits and multi-key sequences. */
module VimKeys {
  import opened Wrappers
  import opened Strings
  import Percent
  import I = Instructions
  import KM = KeyboardMap

  /** A key press. It carries the same five fields as a key combination. */
  type KeyEvent = KM.KeyCombination

  /** A key written in vim syntax, decoded: the key's name and its modifiers. */
  datatype VimKey = VimKey(key: string, shift: bool, ctrl: bool, meta: bool, alt: bool)

  /** A key with no modifiers. */
  function Plain(key: string): VimKey {
    VimKey(key, false, false, false, false)
  }

  // ---------------------------------------------------------------------------
  // Vim syntax

  /** The modifier letters of vim syntax. */
  datatype Modifier = Ctrl | Shift | Meta | Alt

  function ParseModifier(m: string): (r: Option<Modifier>)
    ensures r.Some? <==> m in {"C", "S", "M", "A"}
  {
    match m
    case "C" => Some(Ctrl)
    case "S" => Some(Shift)
    case "M" => Some(Meta)
    case "A" => Some(Alt)
    case _ => None
  }

  /** The key with one more modifier flag set. */
  function Apply(v: VimKey, m: Modifier): VimKey {
    match m
    case Ctrl => v.(ctrl := true)
    case Shift => v.(shift := true)
    case Meta => v.(meta := true)
    case Alt => v.(alt := true)
  }

  /** The single name between angle brackets: the arrow names, `gt` for a
      shifted `>`, anything else as written. */
  function SpecialKey(name: string): VimKey {
    match name
    case "Up" => Plain("ArrowUp")
    case "Down" => Plain("ArrowDown")
    case "Left" => Plain("ArrowLeft")
    case "Right" => Plain("ArrowRight")
    case "gt" => VimKey(">", true, false, false, false)
    case "/" => Plain("/")
    case _ => Plain(name)
  }

  /** `VimKey::from_vim_syntax`. Text in angle brackets is split on `-`;
      outside brackets, `?` and `:` carry shift and anything else is the key
      itself. */
  function FromVimSyntax(s: string): (r: Option<VimKey>)
    ensures r.None? ==> StartsWith(s, "<") && EndsWith(s, ">")
  {
    if StartsWith(s, "<") && EndsWith(s, ">") then
      assert s[0] == '<' && s[|s| - 1] == '>';
      FromBracketed(Split(s[1..|s| - 1], '-'))
    else if s == "?" then Some(VimKey("?", true, false, false, false))
    else if s == ":" then Some(VimKey(":", true, false, false, false))
    else Some(Plain(s))
  }

  /** The `-`-separated parts of bracketed text: one name, a modifier and a
      key, or two modifiers and a key; an unknown modifier or more than three
      parts is an error. */
  function FromBracketed(parts: seq<string>): Option<VimKey> {
    if |parts| == 1 then Some(SpecialKey(parts[0]))
    else if |parts| == 2 then
      match ParseModifier(parts[0])
      case None => None
      case Some(m) => Some(Apply(Plain(parts[1]), m))
    else if |parts| == 3 then
      match (ParseModifier(parts[0]), ParseModifier(parts[1]))
      case (Some(m1), Some(m2)) => Some(Apply(Apply(Plain(parts[2]), m1), m2))
      case _ => None
    else None
  }

  /** The modifier letters of a key, in the order ctrl, shift, meta, alt. */
  function ModifierLetters(v: VimKey): (r: seq<string>)
    ensures |r| <= 4
    ensures forall i :: 0 <= i < |r| ==> r[i] in {"C", "S", "M", "A"}
  {
    (if v.ctrl then ["C"] else []) + (if v.shift then ["S"] else [])
    + (if v.meta then ["M"] else []) + (if v.alt then ["A"] else [])
  }

  /** A key that vim syntax can write: at most two modifiers, no `-` in the
      key, and an unmodified key that does not read as bracketed text or as
      `?` or `:` (those two carry shift). */
  predicate Writable(v: VimKey) {
    |ModifierLetters(v)| <= 2 && '-' !in v.key
    && (|ModifierLetters(v)| == 0 ==>
          !(StartsWith(v.key, "<") && EndsWith(v.key, ">")) && v.key != "?" && v.key != ":")
  }

  /** The vim-syntax name of a key: the key itself, or the modifier letters
      and the key joined by `-` in angle brackets. */
  function Render(v: VimKey): string {
    if |ModifierLetters(v)| == 0 then v.key
    else "<" + Join(ModifierLetters(v) + [v.key], "-") + ">"
  }

  /** Reading back the name `Render` writes gives the key. */
  lemma RenderRoundTrip(v: VimKey)
    requires Writable(v)
    ensures FromVimSyntax(Render(v)) == Some(v)
  {
    if |ModifierLetters(v)| == 1 {
      RenderOneModifier(v);
    } else if |ModifierLetters(v)| == 2 {
      RenderTwoModifiers(v);
    }
  }

  lemma RenderOneModifier(v: VimKey)
    requires Writable(v) && |ModifierLetters(v)| == 1
    ensures FromVimSyntax(Render(v)) == Some(v)
  {
    var letters := ModifierLetters(v);
    assert letters + [v.key] == [letters[0], v.key];
    OneModifier(v);
    BracketedModifier(letters[0], v.key);
  }

  lemma RenderTwoModifiers(v: VimKey)
    requires Writable(v) && |ModifierLetters(v)| == 2
    ensures FromVimSyntax(Render(v)) == Some(v)
  {
    var letters := ModifierLetters(v);
    assert letters + [v.key] == [letters[0], letters[1], v.key];
    TwoModifiers(v);
    BracketedModifiers(letters[0], letters[1], v.key);
  }

  /** `<m-key>` with a known modifier letter. */
  lemma BracketedModifier(m: string, key: string)
    requires m in {"C", "S", "M", "A"} && '-' !in key
    ensures FromVimSyntax("<" + Join([m, key], "-") + ">") == Some(Apply(Plain(key), ParseModifier(m).value))
  {
    BracketParts([m, key]);
  }

  /** `<m1-m2-key>` with known modifier letters. */
  lemma BracketedModifiers(m1: string, m2: string, key: string)
    requires m1 in {"C", "S", "M", "A"} && m2 in {"C", "S", "M", "A"} && '-' !in key
    ensures FromVimSyntax("<" + Join([m1, m2, key], "-") + ">")
         == Some(Apply(Apply(Plain(key), ParseModifier(m1).value), ParseModifier(m2).value))
  {
    var parts := [m1, m2, key];
    assert ParseModifier(parts[0]) == ParseModifier(m1) && ParseModifier(parts[1]) == ParseModifier(m2);
    assert FromBracketed(parts) == Some(Apply(Apply(Plain(key), ParseModifier(m1).value), ParseModifier(m2).value));
    BracketParts(parts);
  }

  /** Bracketed text is read from the pieces it joins with `-`. */
  lemma BracketParts(pieces: seq<string>)
    requires |pieces| >= 1
    requires forall i :: 0 <= i < |pieces| ==> '-' !in pieces[i]
    ensures FromVimSyntax("<" + Join(pieces, "-") + ">") == FromBracketed(pieces)
  {
    var s := "<" + Join(pieces, "-") + ">";
    assert StartsWith(s, "<") && EndsWith(s, ">");
    assert s[1..|s| - 1] == Join(pieces, "-");
    SplitJoin(pieces, '-');
  }

  lemma OneModifier(v: VimKey)
    requires |ModifierLetters(v)| == 1
    ensures ParseModifier(ModifierLetters(v)[0]).Some?
    ensures Apply(Plain(v.key), ParseModifier(ModifierLetters(v)[0]).value) == v
  {
  }

  lemma TwoModifiers(v: VimKey)
    requires |ModifierLetters(v)| == 2
    ensures ParseModifier(ModifierLetters(v)[0]).Some? && ParseModifier(ModifierLetters(v)[1]).Some?
    ensures Apply(Apply(Plain(v.key), ParseModifier(ModifierLetters(v)[0]).value),
                  ParseModifier(ModifierLetters(v)[1]).value) == v
  {
  }

  /** The arrow keys' names in brackets. */
  lemma ArrowNames()
    ensures FromVimSyntax("<Up>") == Some(Plain("ArrowUp"))
    ensures FromVimSyntax("<Down>") == Some(Plain("ArrowDown"))
  {
    SpecialName("Up");
    assert "<" + "Up" + ">" == "<Up>";
    SpecialName("Down");
    assert "<" + "Down" + ">" == "<Down>";
  }

  /** `<gt>` is a shifted `>`. */
  lemma GreaterThanName()
    ensures FromVimSyntax("<gt>") == Some(VimKey(">", true, false, false, false))
  {
    SpecialName("gt");
    assert "<" + "gt" + ">" == "<gt>";
  }

  /** Outside brackets `?` and `:` carry shift. */
  lemma ShiftedNames()
    ensures FromVimSyntax("?") == Some(VimKey("?", true, false, false, false))
    ensures FromVimSyntax(":") == Some(VimKey(":", true, false, false, false))
  {
  }

  lemma SpecialName(name: string)
    requires '-' !in name
    ensures FromVimSyntax("<" + name + ">") == Some(SpecialKey(name))
  {
    assert Join([name], "-") == name;
    BracketParts([name]);
  }

  /** A modifier letter other than C, S, M and A is an error. */
  lemma UnknownModifier(m: string, key: string)
    requires '-' !in m && '-' !in key && m !in {"C", "S", "M", "A"}
    ensures FromVimSyntax("<" + m + "-" + key + ">").None?
  {
    assert m + "-" + key == Join([m, key], "-");
    assert "<" + m + "-" + key + ">" == "<" + Join([m, key], "-") + ">";
    BracketParts([m, key]);
  }

  /** Three modifiers make four parts, which is an error. */
  lemma TooManyModifiers(key: string)
    requires '-' !in key
    ensures FromVimSyntax("<C-S-M-" + key + ">").None?
  {
    var pieces := ["C", "S", "M", key];
    assert Join(pieces[3..], "-") == key by {
      assert pieces[3..] == [key];
    }
    assert Join(pieces[2..], "-") == "M-" + key by {
      assert pieces[2..][0] == "M" && pieces[2..][1..] == pieces[3..];
    }
    assert Join(pieces[1..], "-") == "S-M-" + key by {
      assert pieces[1..][0] == "S" && pieces[1..][1..] == pieces[2..];
    }
    assert "<C-S-M-" + key + ">" == "<" + Join(pieces, "-") + ">";
    BracketParts(pieces);
  }

  // ---------------------------------------------------------------------------
  // Matching events

  /** `VimKey::is_multi_char_sequence`: longer than one UTF-8 byte and not an
      arrow key's name. */
  predicate IsMultiCharSequence(v: VimKey) {
    Percent.ByteLen(v.key) > 1 && !StartsWith(v.key, "Arrow")
  }

  /** The vim key a press would be written as. */
  function EventKey(e: KeyEvent): VimKey {
    VimKey(e.key, e.shift, e.ctrl, e.meta, e.alt)
  }

  /** `VimKey::matches_event`. */
  function MatchesEvent(v: VimKey, e: KeyEvent): (r: bool)
    ensures r <==> !IsMultiCharSequence(v) && v == EventKey(e)
  {
    if Percent.ByteLen(v.key) > 1 && !StartsWith(v.key, "Arrow") then false
    else e.key == v.key && e.shift == v.shift && e.ctrl == v.ctrl && e.meta == v.meta && e.alt == v.alt
  }

  // ---------------------------------------------------------------------------
  // The table

  /** `KeyboardMappings::parse_instruction`: the instruction names a mapping
      may use. */
  function ParseInstruction(name: string): (r: Option<I.Instruction>) {
    match name
    case "NextVerse" => Some(I.NextVerse)
    case "PreviousVerse" => Some(I.PreviousVerse)
    case "NextChapter" => Some(I.NextChapter)
    case "PreviousChapter" => Some(I.PreviousChapter)
    case "NextBook" => Some(I.NextBook)
    case "PreviousBook" => Some(I.PreviousBook)
    case "BeginningOfChapter" => Some(I.BeginningOfChapter)
    case "EndOfChapter" => Some(I.EndOfChapter)
    case "SwitchToPreviousChapter" => Some(I.SwitchToPreviousChapter)
    case "CopyRawVerse" => Some(I.CopyRawVerse)
    case "CopyVerseWithReference" => Some(I.CopyVerseWithReference)
    case "ToggleSidebar" => Some(I.ToggleSidebar)
    case "ToggleCrossReferences" => Some(I.ToggleCrossReferences)
    case "ToggleThemeSidebar" => Some(I.ToggleThemeSidebar)
    case "ToggleBiblePallate" => Some(I.ToggleBiblePallate)
    case "ToggleCommandPallate" => Some(I.ToggleCommandPallate)
    case "NextReference" => Some(I.NextReference)
    case "PreviousReference" => Some(I.PreviousReference)
    case "NextPaletteResult" => Some(I.NextPaletteResult)
    case "PreviousPaletteResult" => Some(I.PreviousPaletteResult)
    case "RandomVerse" => Some(I.RandomVerse)
    case "RandomChapter" => Some(I.RandomChapter)
    case "OpenAboutPage" => Some(I.OpenAboutPage)
    case "ShowTranslations" => Some(I.ShowTranslations)
    case "ToggleVersePallate" => Some(I.ToggleVersePallate)
    case "ToggleVerseVisibility" => Some(I.ToggleVerseVisibility)
    case "ExportToPDF" => Some(I.ExportToPDF)
    case _ => None
  }

  /** The instruction names a mapping may use, with their instructions. */
  const InstructionNames: seq<(string, I.Instruction)> := [
    ("NextVerse", I.NextVerse),
    ("PreviousVerse", I.PreviousVerse),
    ("NextChapter", I.NextChapter),
    ("PreviousChapter", I.PreviousChapter),
    ("NextBook", I.NextBook),
    ("PreviousBook", I.PreviousBook),
    ("BeginningOfChapter", I.BeginningOfChapter),
    ("EndOfChapter", I.EndOfChapter),
    ("SwitchToPreviousChapter", I.SwitchToPreviousChapter),
    ("CopyRawVerse", I.CopyRawVerse),
    ("CopyVerseWithReference", I.CopyVerseWithReference),
    ("ToggleSidebar", I.ToggleSidebar),
    ("ToggleCrossReferences", I.ToggleCrossReferences),
    ("ToggleThemeSidebar", I.ToggleThemeSidebar),
    ("ToggleBiblePallate", I.ToggleBiblePallate),
    ("ToggleCommandPallate", I.ToggleCommandPallate),
    ("NextReference", I.NextReference),
    ("PreviousReference", I.PreviousReference),
    ("NextPaletteResult", I.NextPaletteResult),
    ("PreviousPaletteResult", I.PreviousPaletteResult),
    ("RandomVerse", I.RandomVerse),
    ("RandomChapter", I.RandomChapter),
    ("OpenAboutPage", I.OpenAboutPage),
    ("ShowTranslations", I.ShowTranslations),
    ("ToggleVersePallate", I.ToggleVersePallate),
    ("ToggleVerseVisibility", I.ToggleVerseVisibility),
    ("ExportToPDF", I.ExportToPDF)
  ]

  /** The match is the table: a name parses to an instruction exactly when
      the table pairs them, so unknown names are rejected. */
  lemma ParseInstructionIff(name: string, i: I.Instruction)
    ensures ParseInstruction(name) == Some(i) <==> exists k :: 0 <= k < |InstructionNames| && InstructionNames[k] == (name, i)
  {
    if ParseInstruction(name) == Some(i) {
      var k := ParsedIsListed(name);
      ListedParses(k);
      assert InstructionNames[k] == (name, i);
    }
    forall k | 0 <= k < |InstructionNames| && InstructionNames[k] == (name, i)
      ensures ParseInstruction(name) == Some(i)
    {
      ListedParses(k);
    }
  }

  /** Each name of the table parses to its instruction. */
  lemma ListedParses(k: nat)
    requires k < |InstructionNames|
    ensures ParseInstruction(InstructionNames[k].0) == Some(InstructionNames[k].1)
  {
    if k < 9 { NavigationNames(k); }
    else if k < 18 { PanelNames(k); }
    else { PaletteAndPageNames(k); }
  }

  lemma NavigationNames(k: nat)
    requires k < 9
    ensures ParseInstruction(InstructionNames[k].0) == Some(InstructionNames[k].1)
  {
    match k
    case 0 => case 1 => case 2 => case 3 => case 4 => case 5 => case 6 => case 7 => case 8 =>
  }
  lemma PanelNames(k: nat)
    requires 9 <= k < 18
    ensures ParseInstruction(InstructionNames[k].0) == Some(InstructionNames[k].1)
  {
    match k
    case 9 => case 10 => case 11 => case 12 => case 13 => case 14 => case 15 => case 16 => case 17 =>
  }
  lemma PaletteAndPageNames(k: nat)
    requires 18 <= k < 27
    ensures ParseInstruction(InstructionNames[k].0) == Some(InstructionNames[k].1)
  {
    match k
    case 18 => case 19 => case 20 => case 21 => case 22 => case 23 => case 24 => case 25 => case 26 =>
  }
  /** A name that parses is one of the table's names: the index of its entry. */
  lemma ParsedIsListed(name: string) returns (k: nat)
    requires ParseInstruction(name).Some?
    ensures k < |InstructionNames| && InstructionNames[k].0 == name
  {
    match name
    case "NextVerse" => k := 0;
    case "PreviousVerse" => k := 1;
    case "NextChapter" => k := 2;
    case "PreviousChapter" => k := 3;
    case "NextBook" => k := 4;
    case "PreviousBook" => k := 5;
    case "BeginningOfChapter" => k := 6;
    case "EndOfChapter" => k := 7;
    case "SwitchToPreviousChapter" => k := 8;
    case "CopyRawVerse" => k := 9;
    case "CopyVerseWithReference" => k := 10;
    case "ToggleSidebar" => k := 11;
    case "ToggleCrossReferences" => k := 12;
    case "ToggleThemeSidebar" => k := 13;
    case "ToggleBiblePallate" => k := 14;
    case "ToggleCommandPallate" => k := 15;
    case "NextReference" => k := 16;
    case "PreviousReference" => k := 17;
    case "NextPaletteResult" => k := 18;
    case "PreviousPaletteResult" => k := 19;
    case "RandomVerse" => k := 20;
    case "RandomChapter" => k := 21;
    case "OpenAboutPage" => k := 22;
    case "ShowTranslations" => k := 23;
    case "ToggleVersePallate" => k := 24;
    case "ToggleVerseVisibility" => k := 25;
    case "ExportToPDF" => k := 26;
    case _ => assert false;
  }

  /** The loaded mappings, vim key to instruction name, in the order the hash
      map iterates them. */
  type Mappings = seq<(string, string)>

  /** `HashMap::get`: the name stored under a key. */
  function ValueOf(ms: Mappings, key: string): (r: Option<string>)
    ensures r.Some? ==> (key, r.value) in ms
    ensures r.None? <==> forall j :: 0 <= j < |ms| ==> ms[j].0 != key
  {
    if |ms| == 0 then None
    else if ms[0].0 == key then Some(ms[0].1)
    else ValueOf(ms[1..], key)
  }

  /** `KeyboardMappings::get_instruction`. */
  function GetInstruction(ms: Mappings, key: string): (r: Option<I.Instruction>)
    ensures r.Some? ==> exists name :: (key, name) in ms && ParseInstruction(name) == r
  {
    match ValueOf(ms, key)
    case None => None
    case Some(name) => ParseInstruction(name)
  }

  /** The index of the first mapping, in iteration order, whose key
      satisfies `p`. */
  function FirstKey(ms: Mappings, p: string -> bool): (r: Option<nat>)
    ensures r.Some? ==> r.value < |ms| && p(ms[r.value].0)
    ensures r.Some? ==> forall j :: 0 <= j < r.value ==> !p(ms[j].0)
    ensures r.None? <==> forall j :: 0 <= j < |ms| ==> !p(ms[j].0)
  {
    if |ms| == 0 then None
    else if p(ms[0].0) then Some(0)
    else
      match FirstKey(ms[1..], p)
      case None => None
      case Some(k) => Some(k + 1)
  }

  /** The instruction of the first mapping whose key satisfies `p`; the
      search stops there even when that mapping names no instruction. */
  function FirstInstruction(ms: Mappings, p: string -> bool): (r: Option<I.Instruction>)
    ensures r.Some? ==> exists j :: 0 <= j < |ms| && p(ms[j].0) && GetInstruction(ms, ms[j].0) == r
  {
    match FirstKey(ms, p)
    case None => None
    case Some(j) => GetInstruction(ms, ms[j].0)
  }

  /** A mapping key that decodes to a key matching the press. */
  predicate MatchesPress(k: string, e: KeyEvent) {
    FromVimSyntax(k).Some? && MatchesEvent(FromVimSyntax(k).value, e)
  }

  /** A mapping key for one key press, matching the press. */
  predicate SingleKeyFor(k: string, e: KeyEvent) {
    FromVimSyntax(k).Some? && !IsMultiCharSequence(FromVimSyntax(k).value) && MatchesEvent(FromVimSyntax(k).value, e)
  }

  /** A mapping key for a key sequence, spelling out `buffer`. */
  predicate SequenceIs(k: string, buffer: string) {
    FromVimSyntax(k).Some? && IsMultiCharSequence(FromVimSyntax(k).value) && FromVimSyntax(k).value.key == buffer
  }

  /** A mapping key for a key sequence that `buffer` begins. */
  predicate SequenceStarts(k: string, buffer: string) {
    FromVimSyntax(k).Some? && IsMultiCharSequence(FromVimSyntax(k).value) && StartsWith(FromVimSyntax(k).value.key, buffer)
  }

  /** Some mapping is a key sequence that `buffer` could still complete. */
  predicate IsPrefix(ms: Mappings, buffer: string) {
    exists j :: 0 <= j < |ms| && SequenceStarts(ms[j].0, buffer)
  }

  // ---------------------------------------------------------------------------
  // The mapper

  /** `VimKeyboardMapper`'s two buffers: the keys of an unfinished sequence
      and the typed count digits. */
  datatype Mapper = Mapper(sequence: string, multiplier: string)

  /** A mapper with both buffers empty. */
  const Empty := Mapper("", "")

  /** `clear_buffers`. */
  function ClearBuffers(m: Mapper): (r: Mapper)
    ensures !HasPendingSequence(r)
  {
    Mapper("", "")
  }

  /** `has_pending_sequence`. */
  predicate HasPendingSequence(m: Mapper) {
    m.sequence != "" || m.multiplier != ""
  }

  /** `get_current_input_display`: the count, then the pending keys. */
  function CurrentInputDisplay(m: Mapper): (r: string)
    ensures |r| == |m.multiplier| + |m.sequence|
    ensures r[..|m.multiplier|] == m.multiplier && r[|m.multiplier|..] == m.sequence
  {
    m.multiplier + m.sequence
  }

  /** Something is pending exactly when the display is not empty. */
  lemma PendingIffDisplayed(m: Mapper)
    ensures HasPendingSequence(m) <==> CurrentInputDisplay(m) != ""
  {
    if m.multiplier != "" {
      assert CurrentInputDisplay(m)[0] == m.multiplier[0];
    } else if m.sequence != "" {
      assert CurrentInputDisplay(m)[0] == m.sequence[0];
    }
  }

  /** The count the buffer stands for: 1 when empty or not a `u32`. */
  function Multiplier(m: Mapper): (r: nat)
    ensures r < U32_LIMIT
    ensures m.multiplier != "" && ParseU32(m.multiplier).Some? ==> r == ParseU32(m.multiplier).value
  {
    if m.multiplier == "" then 1 else ParseU32(m.multiplier).GetOr(1)
  }

  predicate Modified(e: KeyEvent) {
    e.ctrl || e.meta || e.alt || e.shift
  }

  /** `VimKeyboardMapper::map_to_instruction`: the buffers after the press,
      and the instruction with its count when the press completes one. */
  function MapToInstruction(ms: Mappings, m: Mapper, e: KeyEvent): (r: (Mapper, Option<(I.Instruction, nat)>))
    ensures r.1.Some? ==> r.0 == Empty && r.1.value.1 < U32_LIMIT
    ensures AllDigits(m.multiplier) ==> AllDigits(r.0.multiplier)
  {
    if Modified(e) then ModifiedPress(ms, m, e)
    else if e.key != "" && IsDigit(e.key[0]) then (Mapper(m.sequence, m.multiplier + [e.key[0]]), None)
    else if e.key == "g" then GPress(m)
    else OtherPress(ms, m, e)
  }

  /** A press with a modifier: the first mapping that matches it, with the
      buffered count; the buffers stay when nothing matches. */
  function ModifiedPress(ms: Mappings, m: Mapper, e: KeyEvent): (r: (Mapper, Option<(I.Instruction, nat)>))
    ensures r.1.Some? ==> r.0 == Empty && r.1.value.1 < U32_LIMIT
    ensures r.1.None? ==> r.0 == m
  {
    var found := FirstInstruction(ms, k => MatchesPress(k, e));
    if found.Some? then (ClearBuffers(m), Some((found.value, Multiplier(m)))) else (m, None)
  }

  /** A plain `g`: the second `g` of `gg`, a count followed by `g` (go to the
      verse of that number), or the first `g` of a sequence. */
  function GPress(m: Mapper): (r: (Mapper, Option<(I.Instruction, nat)>))
    ensures r.1.Some? ==> r.0 == Empty && r.1.value.1 < U32_LIMIT
    ensures r.0.multiplier in {"", m.multiplier}
  {
    if m.sequence == "g" then (ClearBuffers(m), Some((I.BeginningOfChapter, Multiplier(m))))
    else if m.multiplier != "" then (ClearBuffers(m), Some((I.GoToVerse(Multiplier(m)), 1)))
    else (Mapper(m.sequence + "g", m.multiplier), None)
  }

  /** Any other unmodified press: a single-key mapping, else the key joins
      the sequence buffer, which either completes a multi-key mapping, stays
      while it begins one, or is dropped with the count. */
  function OtherPress(ms: Mappings, m: Mapper, e: KeyEvent): (r: (Mapper, Option<(I.Instruction, nat)>))
    ensures r.1.Some? ==> r.0 == Empty && r.1.value.1 < U32_LIMIT
    ensures r.0.multiplier in {"", m.multiplier}
  {
    var single := FirstInstruction(ms, k => SingleKeyFor(k, e));
    if single.Some? then (ClearBuffers(m), Some((single.value, Multiplier(m))))
    else if m.sequence != "" || (!IsDigit(if e.key == "" then ' ' else e.key[0]) && e.key != "g") then
      var buffer := m.sequence + e.key;
      var complete := FirstInstruction(ms, k => SequenceIs(k, buffer));
      if complete.Some? then (ClearBuffers(m), Some((complete.value, Multiplier(m))))
      else if IsPrefix(ms, buffer) then (Mapper(buffer, m.multiplier), None)
      else (ClearBuffers(m), None)
    else (m, None)
  }

  // ---------------------------------------------------------------------------
  // Properties of the mapper

  /** An unmodified press that starts with a digit adds that digit to the
      count and produces nothing. */
  lemma DigitExtendsCount(ms: Mappings, m: Mapper, e: KeyEvent)
    requires !Modified(e) && e.key != "" && IsDigit(e.key[0])
    ensures MapToInstruction(ms, m, e) == (Mapper(m.sequence, m.multiplier + [e.key[0]]), None)
  {
  }

  /** A modified press that no mapping matches leaves both buffers as they
      were. */
  lemma UnmatchedModifiedKeepsBuffers(ms: Mappings, m: Mapper, e: KeyEvent)
    requires Modified(e)
    requires forall j :: 0 <= j < |ms| ==> !MatchesPress(ms[j].0, e)
    ensures MapToInstruction(ms, m, e) == (m, None)
  {
  }

  /** The guard before the sequence search never fails: the presses that
      reach it start with no digit and are not `g`, so an unmodified press
      with no single-key mapping always ends with the sequence buffer
      extended by its key, or with both buffers cleared. */
  lemma SequenceGuardAlwaysHolds(ms: Mappings, m: Mapper, e: KeyEvent)
    requires !Modified(e) && !(e.key != "" && IsDigit(e.key[0])) && e.key != "g"
    requires FirstInstruction(ms, k => SingleKeyFor(k, e)).None?
    ensures var r := MapToInstruction(ms, m, e);
      r.0 == Empty || (r.1.None? && r.0 == Mapper(m.sequence + e.key, m.multiplier))
  {
  }

  /** Pending keys are kept only while a mapping could still complete them:
      after a press other than `g` that produced nothing, a non-empty
      sequence buffer begins some multi-key mapping. */
  lemma KeptSequenceIsPrefix(ms: Mappings, m: Mapper, e: KeyEvent)
    requires e.key != "g"
    ensures var r := MapToInstruction(ms, m, e);
      r.1.None? && r.0.sequence != "" && r.0.sequence != m.sequence ==> IsPrefix(ms, r.0.sequence)
  {
  }

  /** The presses of a string of count digits, unmodified. */
  function DigitPresses(digits: string): (r: seq<KeyEvent>)
    ensures |r| == |digits|
  {
    if digits == [] then [] else [KM.Simple([digits[0]])] + DigitPresses(digits[1..])
  }

  /** The buffers after a run of presses, and what the last press produced. */
  function Run(ms: Mappings, m: Mapper, es: seq<KeyEvent>): (Mapper, Option<(I.Instruction, nat)>)
    decreases |es|
  {
    if es == [] then (m, None)
    else
      var step := MapToInstruction(ms, m, es[0]);
      if |es| == 1 then step else Run(ms, step.0, es[1..])
  }

  /** The press of one count digit. */
  lemma DigitStep(ms: Mappings, m: Mapper, c: char)
    requires IsDigit(c)
    ensures MapToInstruction(ms, m, KM.Simple([c])) == (Mapper(m.sequence, m.multiplier + [c]), None)
  {
  }

  /** Typing digits appends them to the count and produces nothing. */
  lemma {:induction false} RunDigits(ms: Mappings, m: Mapper, digits: string)
    requires AllDigits(digits)
    ensures Run(ms, m, DigitPresses(digits)) == (Mapper(m.sequence, m.multiplier + digits), None)
    decreases |digits|
  {
    if digits != [] {
      var es := DigitPresses(digits);
      var next := Mapper(m.sequence, m.multiplier + [digits[0]]);
      assert es[0] == KM.Simple([digits[0]]) && es[1..] == DigitPresses(digits[1..]);
      DigitStep(ms, m, digits[0]);
      if |digits| > 1 {
        assert Run(ms, m, es) == Run(ms, next, es[1..]);
        RunDigits(ms, next, digits[1..]);
        assert m.multiplier + [digits[0]] + digits[1..] == m.multiplier + digits;
      } else {
        assert [digits[0]] == digits;
      }
    } else {
      assert m.multiplier + digits == m.multiplier;
    }
  }

  /** A count followed by `g` goes to that verse, with count 1: typing the
      digits of `n` from empty buffers and then `g` gives `GoToVerse(n)`. */
  lemma CountThenG(ms: Mappings, n: nat)
    requires n < U32_LIMIT
    ensures var typed := Run(ms, Empty, DigitPresses(NatToString(n)));
      typed == (Mapper("", NatToString(n)), None)
      && MapToInstruction(ms, typed.0, KM.Simple("g")) == (Empty, Some((I.GoToVerse(n), 1)))
  {
    var digits := NatToString(n);
    RunDigits(ms, Empty, digits);
    assert "" + digits == digits;
    ParseNatToString(n);
  }

  /** `gg` goes to the beginning of the chapter. A count typed between the
      two presses becomes the instruction's count. */
  lemma DoubleG(ms: Mappings, n: nat)
    requires n < U32_LIMIT
    ensures MapToInstruction(ms, Empty, KM.Simple("g")) == (Mapper("g", ""), None)
    ensures MapToInstruction(ms, Mapper("g", ""), KM.Simple("g")) == (Empty, Some((I.BeginningOfChapter, 1)))
    ensures var typed := Run(ms, Mapper("g", ""), DigitPresses(NatToString(n)));
      typed == (Mapper("g", NatToString(n)), None)
      && MapToInstruction(ms, typed.0, KM.Simple("g")) == (Empty, Some((I.BeginningOfChapter, n)))
  {
    assert "" + "g" == "g";
    var digits := NatToString(n);
    RunDigits(ms, Mapper("g", ""), digits);
    assert "" + digits == digits;
    ParseNatToString(n);
  }

  /** A mapping written with `Render` fires on the press of its key, ahead of
      every other mapping, with the buffered count; that count is 1 unless
      the key has modifiers or is neither a digit nor `g`. */
  lemma RenderedBindingFires(ms: Mappings, m: Mapper, v: VimKey, name: string, ins: I.Instruction)
    requires |ms| > 0 && ms[0] == (Render(v), name)
    requires Writable(v) && !IsMultiCharSequence(v)
    requires ParseInstruction(name) == Some(ins)
    requires !Modified(EventKeyPress(v)) ==> v.key != "g" && !(v.key != "" && IsDigit(v.key[0]))
    ensures MapToInstruction(ms, m, EventKeyPress(v)) == (Empty, Some((ins, Multiplier(m))))
  {
    RenderRoundTrip(v);
    assert GetInstruction(ms, Render(v)) == Some(ins);
    var e := EventKeyPress(v);
    assert MatchesEvent(v, e);
    if Modified(e) {
      assert MatchesPress(ms[0].0, e);
      assert FirstKey(ms, k => MatchesPress(k, e)) == Some(0);
    } else {
      assert SingleKeyFor(ms[0].0, e);
      assert FirstKey(ms, k => SingleKeyFor(k, e)) == Some(0);
    }
  }

  /** The press of a vim key. */
  function EventKeyPress(v: VimKey): (e: KeyEvent)
    ensures EventKey(e) == v
  {
    KM.KeyCombination(v.key, v.shift, v.ctrl, v.meta, v.alt)
  }
}
