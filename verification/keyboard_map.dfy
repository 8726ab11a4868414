/** The fixed key table of the reader (site/src/instructions/keyboard_map.rs):
    a key with its four modifier flags maps to one instruction, `NoOp` when the
    table has no entry. */
module KeyboardMap {
  import opened Wrappers
  import opened Strings
  import I = Instructions

  /** A key press: the key's name and the shift, ctrl, meta and alt flags.
      `KeyCombination::from_event` copies these five fields of the event. */
  datatype KeyCombination = KeyCombination(key: string, shift: bool, ctrl: bool, meta: bool, alt: bool)

  predicate Unmodified(kc: KeyCombination) {
    !kc.shift && !kc.ctrl && !kc.meta && !kc.alt
  }

  // ---------------------------------------------------------------------------
  // Constructors

  function Simple(key: string): KeyCombination {
    KeyCombination(key, false, false, false, false)
  }

  function WithShift(key: string): KeyCombination {
    KeyCombination(key, true, false, false, false)
  }

  function WithCtrl(key: string): KeyCombination {
    KeyCombination(key, false, true, false, false)
  }

  function WithMeta(key: string): KeyCombination {
    KeyCombination(key, false, false, true, false)
  }

  function WithCtrlShift(key: string): KeyCombination {
    KeyCombination(key, true, true, false, false)
  }

  /** Despite its name, the combination has the ctrl flag alone: it is the
      same value `WithCtrl` builds. */
  function WithMetaOrCtrl(key: string): KeyCombination {
    KeyCombination(key, false, true, false, false)
  }

  /** Each constructor keeps the key and sets only its named modifiers, and the
      five constructors give five different combinations; "meta or ctrl" is
      ctrl alone. */
  lemma ConstructorModifiers(key: string)
    ensures Unmodified(Simple(key)) && Simple(key).key == key
    ensures var c := WithShift(key); c.shift && !c.ctrl && !c.meta && !c.alt && c.key == key
    ensures var c := WithCtrl(key); !c.shift && c.ctrl && !c.meta && !c.alt && c.key == key
    ensures var c := WithMeta(key); !c.shift && !c.ctrl && c.meta && !c.alt && c.key == key
    ensures var c := WithCtrlShift(key); c.shift && c.ctrl && !c.meta && !c.alt && c.key == key
    ensures WithMetaOrCtrl(key) == WithCtrl(key) && WithMetaOrCtrl(key) != WithMeta(key)
    ensures |{Simple(key), WithShift(key), WithCtrl(key), WithMeta(key), WithCtrlShift(key)}| == 5
  {
    var all := {Simple(key), WithShift(key), WithCtrl(key), WithMeta(key), WithCtrlShift(key)};
    assert all == {Simple(key)} + {WithShift(key)} + {WithCtrl(key)} + {WithMeta(key)} + {WithCtrlShift(key)};
  }

  // ---------------------------------------------------------------------------
  // The mapping

  /** `KeyboardMapper::map_to_instruction`: an unmodified key that reads as a
      `u32` goes to that verse; otherwise the fixed table decides. */
  function MapToInstruction(kc: KeyCombination): (r: I.Instruction)
    ensures r.GoToVerse? ==> Unmodified(kc) && ParseU32(kc.key) == Some(r.verse)
  {
    if ParseU32(kc.key).Some? && Unmodified(kc) then I.GoToVerse(ParseU32(kc.key).value)
    else Named(kc)
  }

  /** The arms of `map_to_instruction`'s match, grouped by key: each arm
      names a key and the exact set of modifier flags it needs. */
  function Named(kc: KeyCombination): (r: I.Instruction)
    ensures !r.GoToVerse?
  {
    var plain := Unmodified(kc);
    var shiftOnly := kc.shift && !kc.ctrl && !kc.meta && !kc.alt;
    var ctrlOnly := !kc.shift && kc.ctrl && !kc.meta && !kc.alt;
    var metaOnly := !kc.shift && !kc.ctrl && kc.meta && !kc.alt;
    var ctrlShift := kc.shift && kc.ctrl && !kc.meta && !kc.alt;
    match kc.key
    // Basic navigation
    case "ArrowRight" | "l" => if plain then I.NextChapter else I.NoOp
    case "ArrowLeft" | "h" => if plain then I.PreviousChapter else I.NoOp
    case "ArrowDown" | "j" => if plain then I.NextVerse else I.NoOp
    case "ArrowUp" => if plain then I.PreviousVerse else I.NoOp
    // k moves up; with Ctrl or Cmd it opens the command palette
    case "k" => if plain then I.PreviousVerse else if ctrlOnly || metaOnly then I.OpenCommandPalette else I.NoOp
    // Book navigation
    case "H" => if shiftOnly then I.PreviousBook else I.NoOp
    case "L" => if shiftOnly then I.NextBook else I.NoOp
    // Chapter jumping
    case "g" => if plain then I.PendingG else I.NoOp
    case "G" => if shiftOnly then I.EndOfChapter else I.NoOp
    // Special navigation
    case "s" => if plain then I.SwitchToPreviousChapter else I.NoOp
    // Copying
    case "c" => if plain then I.CopyRawVerse else if shiftOnly then I.CopyVerseWithReference else I.NoOp
    case "C" => if shiftOnly then I.CopyVerseWithReference else I.NoOp
    // Panels
    case "b" => if ctrlOnly then I.ToggleSidebar else I.NoOp
    case "r" => if plain then I.ToggleCrossReferences else I.NoOp
    case "R" => if ctrlShift then I.ToggleCrossReferences else I.NoOp
    case _ => I.NoOp
  }

  /** `KeyboardMapper::should_handle_key`. */
  predicate ShouldHandleKey(kc: KeyCombination) {
    !MapToInstruction(kc).NoOp?
  }

  // ---------------------------------------------------------------------------
  // The table as data

  /** The key table, one entry per combination, built with the constructors. */
  const Bindings: seq<(KeyCombination, I.Instruction)> := [
    (Simple("ArrowRight"), I.NextChapter), (Simple("l"), I.NextChapter),
    (Simple("ArrowLeft"), I.PreviousChapter), (Simple("h"), I.PreviousChapter),
    (Simple("ArrowDown"), I.NextVerse), (Simple("j"), I.NextVerse),
    (Simple("ArrowUp"), I.PreviousVerse), (Simple("k"), I.PreviousVerse),
    (WithShift("H"), I.PreviousBook), (WithShift("L"), I.NextBook),
    (Simple("g"), I.PendingG), (WithShift("G"), I.EndOfChapter),
    (Simple("s"), I.SwitchToPreviousChapter),
    (Simple("c"), I.CopyRawVerse), (WithShift("C"), I.CopyVerseWithReference), (WithShift("c"), I.CopyVerseWithReference),
    (WithCtrl("b"), I.ToggleSidebar), (Simple("r"), I.ToggleCrossReferences), (WithCtrlShift("R"), I.ToggleCrossReferences),
    (WithMetaOrCtrl("k"), I.OpenCommandPalette), (WithMeta("k"), I.OpenCommandPalette)
  ]

  /** No key of the table reads as a number. */
  lemma TableKeysNotNumbers()
    ensures forall i :: 0 <= i < |Bindings| ==> ParseU32(Bindings[i].0.key).None?
  {
    forall i | 0 <= i < |Bindings| ensures ParseU32(Bindings[i].0.key).None? {
      var key := Bindings[i].0.key;
      assert key != [] && !IsDigit(key[|key| - 1]);
    }
  }

  /** Each table entry is a case of the match, with the same instruction. */
  lemma TableEntry(i: nat)
    requires i < |Bindings|
    ensures Named(Bindings[i].0) == Bindings[i].1
  {
    if i < 4 { ChapterEntries(i); }
    else if i < 8 { VerseEntries(i); }
    else if i < 13 { JumpEntries(i); }
    else if i < 16 { CopyEntries(i); }
    else { PanelEntries(i); }
  }

  lemma ChapterEntries(i: nat)
    requires i < 4
    ensures Named(Bindings[i].0) == Bindings[i].1
  {
    match i
    case 0 => case 1 => case 2 => case 3 =>
  }

  lemma VerseEntries(i: nat)
    requires 4 <= i < 8
    ensures Named(Bindings[i].0) == Bindings[i].1
  {
    match i
    case 4 => case 5 => case 6 => case 7 =>
  }

  lemma JumpEntries(i: nat)
    requires 8 <= i < 13
    ensures Named(Bindings[i].0) == Bindings[i].1
  {
    match i
    case 8 => case 9 => case 10 => case 11 => case 12 =>
  }

  lemma CopyEntries(i: nat)
    requires 13 <= i < 16
    ensures Named(Bindings[i].0) == Bindings[i].1
  {
    match i
    case 13 => case 14 => case 15 =>
  }

  lemma PanelEntries(i: nat)
    requires 16 <= i < |Bindings|
    ensures Named(Bindings[i].0) == Bindings[i].1
  {
    match i
    case 16 => case 17 => case 18 => case 19 => case 20 =>
  }

  /** A combination the match handles is a key of the table: the index of its entry. */
  lemma EntryFor(kc: KeyCombination) returns (i: nat)
    requires !Named(kc).NoOp?
    ensures i < |Bindings| && Bindings[i].0 == kc
  {
    var k := kc.key;
    if Unmodified(kc) {
      i := if k == "ArrowRight" then 0 else if k == "l" then 1 else if k == "ArrowLeft" then 2
        else if k == "h" then 3 else if k == "ArrowDown" then 4 else if k == "j" then 5
        else if k == "ArrowUp" then 6 else if k == "k" then 7 else if k == "g" then 10
        else if k == "s" then 12 else if k == "c" then 13 else 17;
    } else if kc.shift && !kc.ctrl {
      i := if k == "H" then 8 else if k == "L" then 9 else if k == "G" then 11
        else if k == "C" then 14 else 15;
    } else if kc.shift {
      i := 18;
    } else if kc.ctrl {
      i := if k == "b" then 16 else 19;
    } else {
      i := 20;
    }
  }

  /** The match is the table: a combination maps to the instruction the table
      lists for it, and exactly the combinations of the table map to
      something other than `NoOp`. */
  lemma NamedIsTable(kc: KeyCombination)
    ensures !Named(kc).NoOp? <==> exists i :: 0 <= i < |Bindings| && Bindings[i].0 == kc
    ensures forall i :: 0 <= i < |Bindings| && Bindings[i].0 == kc ==> Named(kc) == Bindings[i].1
  {
    forall i | 0 <= i < |Bindings| && Bindings[i].0 == kc ensures Named(kc) == Bindings[i].1 {
      TableEntry(i);
    }
    if !Named(kc).NoOp? {
      var i := EntryFor(kc);
    }
  }

  /** A key is handled exactly when it is an unmodified number or a
      combination of the table; a combination of the table that is not an
      unmodified number maps to the instruction the table lists. */
  lemma ShouldHandleIff(kc: KeyCombination)
    ensures ShouldHandleKey(kc) <==>
      (Unmodified(kc) && ParseU32(kc.key).Some?) || exists i :: 0 <= i < |Bindings| && Bindings[i].0 == kc
    ensures forall i :: 0 <= i < |Bindings| && Bindings[i].0 == kc ==> MapToInstruction(kc) == Bindings[i].1
  {
    NamedIsTable(kc);
    TableKeysNotNumbers();
  }

  // ---------------------------------------------------------------------------
  // The documented keys

  /** An unmodified number key goes to that verse, ahead of the table. */
  lemma NumberKeyGoesToVerse(n: nat)
    requires n < U32_LIMIT
    ensures MapToInstruction(Simple(NatToString(n))) == I.GoToVerse(n)
  {
    ParseNatToString(n);
  }

  /** Ctrl+k and Cmd+k open the palette; with shift or alt added, or with both
      ctrl and meta, nothing happens. */
  lemma PaletteKeys(shift: bool, alt: bool)
    ensures MapToInstruction(WithCtrl("k")) == I.OpenCommandPalette
    ensures MapToInstruction(WithMeta("k")) == I.OpenCommandPalette
    ensures MapToInstruction(KeyCombination("k", shift, true, true, alt)) == I.NoOp
    ensures shift || alt ==> MapToInstruction(KeyCombination("k", shift, true, false, alt)) == I.NoOp
    ensures shift || alt ==> MapToInstruction(KeyCombination("k", shift, false, true, alt)) == I.NoOp
  {
  }
}
