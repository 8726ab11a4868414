# A verified model of a keyboard-driven Bible reader

This project models, in Dafny, the logic of a Bible reader web site written in Rust, together with its translation-format library and two command-line tools. It covers the following.

- **Reader core.** Bibles, books, chapters and verses. Verse ranges and the `?verses=` query. Chapter paths. Next and previous verse, chapter and book. Walks of n chapters. Renaming chapters after a translation.
- **Instruction state machine.** Panel toggles, with the references and themes panels excluding each other. Verse and chapter navigation with a count multiplier. Selection extension. Previous-chapter history. The instruction processor that builds copy text and verse references.
- **Key input.** The fixed key table. The vim key syntax, with the mapper's count and sequence buffers.
- **Search.** The command palette's verse-reference parser, verse-number scorer, text normalisation, roman/arabic numeral rewriting, and the layered fuzzy scorer: word, prefix, contains and subsequence.
- **Names and URLs.**
  - The per-language book-name tables with their alias keys.
  - The canonical and display book names of the cross-reference panel, its reference links, vote labels and ordering.
  - The `/Book/Chapter` path parser.
- **Persisted lists.** Recent chapters, downloaded translations and imported translations. These live in a local-storage value that can refuse writes. Only the recent-chapters code also copes with local storage being missing. The import form's validation order is included.
- **Formatters.** The linked-markdown export (index, book and chapter files with previous/next links). The comparison panel's range labels and verse filter.
- **Translation-format library (`rust/peter`).**
  - Book-name parsing.
  - The `VerseNumber` order.
  - The `Storage` variants.
  - The v0 to v1 conversion with its error cases.
  - The v1 validator: gaps, duplicates, inverted and overlapping ranges, warnings and statistics.
- **Verifier tools.** The KJV 66-book name table and `Bible::is_valid`. The ordered check sequence of the JSON verifier. The output-file-name derivation of the converter.

Functions are pure and work on immutable datatypes. Anything the program reads from outside becomes a parameter: the Bible data, the translation tables, the percent-decoder, the stored values and the key mappings. Each operation's contract states what the source promises. Lemmas relate operations to their inverses, to independent reference definitions, or to the invariants they keep.

Module layout follows the source:

| module | source |
|---|---|
| `BibleCore` | site/src/core/bible_core.rs |
| `QueryParams` | shared `?verses=` handling |
| `UrlHelpers` | site/src/utils/url_helpers.rs |
| `SiteStorage` | site/src/storage/* and the import form |
| `ViewState` | site/src/view_state.rs |
| `Processor` | site/src/instructions/processor.rs |
| `Instructions` | the instruction set |
| `KeyboardMap` | keyboard_map.rs |
| `VimKeys` | vim_keys.rs |
| `CommandPalette` | the command palette |
| `TranslationMap` | translation_map/translation.rs |
| `CrossReferences` | cross_references_sidebar.rs |
| `TranslationComparison` | the comparison panel |
| `LinkedMarkdown` | linked_markdown_export.rs |
| `BookNames` | peter book_name.rs |
| `PeterVerse` | peter verse.rs |
| `PeterStorage` | peter storage.rs |
| `PeterConversion` | peter conversion.rs |
| `PeterCheck` | peter check.rs |
| `KjvTypes` | bible-verify types.rs |
| `KjvVerifier` | bible-verify verifier.rs |
| `FileOps` | sefer file_ops.rs |

`Strings`, `Percent`, `Lists`, `SortedMaps`, `Arithmetic` and `Wrappers` hold the standard-library behaviour the modules rely on:
- string splitting, trimming and lower-casing;
- URL percent-encoding;
- `retain`;
- `BTreeMap` as a sorted list;
- `Option` and `Result`.

## Model

| member | source | states |
|---|---|---|
| BibleCore.FromString | site/src/core/bible_core.rs:100-117 | a parsed range has start <= end, both below 2^32; text without '-' yields the trimmed single number n as the range n-n |
| BibleCore.FromStringRangeText | site/src/core/bible_core.rs:100-117 | parsing the text a valid range is written as ("s" or "s-e") gives that range back |
| BibleCore.FromStringPair | site/src/core/bible_core.rs:101-109 | "a-b" is accepted exactly when a <= b, and then gives the range a..b |
| BibleCore.ToPath | site/src/core/bible_core.rs:142-153 | a chapter path starts with '/' and ends with '/' and the chapter number |
| BibleCore.PathBookDropsLastWord | site/src/core/bible_core.rs:143-149 | for a chapter named "<words> <last>" the book part of the path is the words without the last one |
| BibleCore.ToPathWithVerses | site/src/core/bible_core.rs:155-174 | no ranges give the plain path; otherwise the path, "?verses=" and the comma-separated ranges |
| BibleCore.NextVerse | site/src/core/bible_core.rs:191-197 | a next verse exists exactly when the verse is below the chapter's verse count, and it is the verse plus one |
| BibleCore.PreviousVerse | site/src/core/bible_core.rs:199-205 | a previous verse exists exactly when the verse is above 1, and it is the verse minus one |
| BibleCore.NextPreviousVerse | site/src/core/bible_core.rs:191-205 | inside a chapter, the previous verse of the next verse is the verse itself |
| BibleCore.Position | site/src/core/bible_core.rs:237-240 | the first index whose chapter has the same number and name, or none when no chapter has |
| BibleCore.Locate | site/src/core/bible_core.rs:234-240 | the first (book, chapter) position in reading order whose chapter has the key; none exactly when no chapter has it |
| BibleCore.LocateOwnPosition | site/src/core/bible_core.rs:234-240 | with unique chapter keys every chapter of the Bible is located at its own position |
| BibleCore.PreviousOfNext | site/src/core/bible_core.rs:233-273 | with unique keys, going to the next chapter and then to the previous one returns to the chapter |
| BibleCore.NextOfPrevious | site/src/core/bible_core.rs:233-273 | with unique keys, going to the previous chapter and then to the next one returns to the chapter |
| BibleCore.FirstHasNoPrevious | site/src/core/bible_core.rs:252-311 | the first chapter of the Bible has neither a previous chapter nor a previous book |
| BibleCore.LastHasNoNext | site/src/core/bible_core.rs:233-291 | the last chapter of the last book has neither a next chapter nor a next book |
| BibleCore.PreviousBookOfNextBook | site/src/core/bible_core.rs:275-311 | next book then previous book lands on the first chapter of the original book |
| BibleCore.WalkForward | site/src/core/bible_core.rs:333-350 | the forward walk ends inside the Bible, or stays put after zero steps |
| BibleCore.WalkBackward | site/src/core/bible_core.rs:382-399 | the backward walk never ends in a later book |
| BibleCore.WalkForwardCompose | site/src/core/bible_core.rs:333-346 | walking m + n chapters forward is walking m, then n more; a walk that stops stays stopped |
| BibleCore.WalkBackwardCompose | site/src/core/bible_core.rs:382-399 | walking m + n chapters back is walking m, then n more |
| BibleCore.NthPathZero | site/src/core/bible_core.rs:314-410 | zero steps give the chapter's own path; a chapter not in the Bible gives no path for any n |
| BibleCore.NthNextOne | site/src/core/bible_core.rs:233-250 | one step of the n-step forward walk gives the path of get_next_chapter |
| BibleCore.NthPreviousOne | site/src/core/bible_core.rs:252-273 | one step of the n-step backward walk gives the path of get_previous_chapter |
| BibleCore.NthNextPastEnd | site/src/core/bible_core.rs:333-346 | from the last book, more steps than chapters remain give no path |
| BibleCore.NthPreviousPastStart | site/src/core/bible_core.rs:382-396 | from the first book, more steps than chapters before give no path |
| BibleCore.GetChapter | site/src/core/bible_core.rs:209-231 | an undecodable book is BookNotFound; a found chapter has the asked number and belongs to a book whose lower-cased name equals the decoded one |
| BibleCore.FindBook | site/src/core/bible_core.rs:219-223 | the first book whose lower-cased name matches, or none when no book matches |
| BibleCore.FindChapter | site/src/core/bible_core.rs:225-229 | the first chapter with the asked number, or none |
| BibleCore.GetChapterFindsEveryChapter | site/src/core/bible_core.rs:209-231 | with distinct book names and chapter numbers, every chapter is found from its encoded book name and its number |
| BibleCore.RenameChapter | site/src/core/bible_core.rs:66-76 | the chapter keeps its number and verse count, is named "<book> <n>", and every verse takes that name |
| BibleCore.TranslateNames | site/src/core/bible_core.rs:55-80 | each book takes its translated name when the lower-cased, underscored key is known; chapters and verses are renamed and keep numbers and texts |
| BibleCore.TranslatedChapterPath | site/src/core/bible_core.rs:55-80 | after translation a chapter's path is built from the translated book name |
| UrlHelpers.ParseBookChapterFromUrl | site/src/utils/url_helpers.rs:23-42 | a result exists exactly when the path has two segments and the second is a u32; the book is the decoded first segment, or the first segment with '_' made ' ' when decoding fails |
| UrlHelpers.IsValidChapterPath | site/src/utils/url_helpers.rs:55-57 | true exactly when the path has two segments and the second parses as a u32 |
| UrlHelpers.ParseToPath | site/src/utils/url_helpers.rs:23-42 | parsing a chapter's path gives back its book segment and chapter number |
| UrlHelpers.ParseTwoSegments | site/src/utils/url_helpers.rs:23-42 | a two-segment path parses exactly when its chapter segment is a u32, to the decoded book and that number |
| UrlHelpers.InvalidPaths | site/src/utils/url_helpers.rs:87-93 | "/Genesis", "/Genesis/invalid", "/" and "" do not parse |
| UrlHelpers.EncodedSpacePath | site/src/utils/url_helpers.rs:71-77 | "/1%20Timothy/3" parses to ("1 Timothy", 3) |
| UrlHelpers.EncodedTimothy | site/src/utils/url_helpers.rs:14 | the percent-encoded form of "1 Timothy" is "1%20Timothy" |
| UrlHelpers.UnderscorePathKeepsUnderscore | site/src/utils/url_helpers.rs:79-85 | "/1_Timothy/3" parses to ("1_Timothy", 3), not to the ("1 Timothy", 3) the test expects |
| UrlHelpers.ParseBookChapterIntended | site/src/utils/url_helpers.rs:28-33 | accepts the same paths as the written parse with the same chapter, and its book never holds '_' |
| UrlHelpers.UnderscorePathIntended | site/src/utils/url_helpers.rs:79-85 | the corrected parse maps a book written with '_' for ' ' back to the spaced name |
| UrlHelpers.EncodedPathIntended | site/src/utils/url_helpers.rs:71-77 | the corrected parse maps a percent-encoded book name back to the name |
| UrlHelpers.UnderscorePathFixed | site/src/utils/url_helpers.rs:79-85 | the corrected parse gives ("1 Timothy", 3) for "/1_Timothy/3" |
| SiteStorage.Write | site/src/storage/translation_storage.rs:47 | a write to a translation slot that local storage refuses leaves the store as it was and is an error; otherwise the new contents are stored |
| SiteStorage.AddRecent | site/src/storage/recent_chapters.rs:29-47 | the chapter goes first, with the number of other entries as its timestamp; the other entries follow in their order without the chapter; at most ten entries are kept |
| SiteStorage.AddRecentUnique | site/src/storage/recent_chapters.rs:32-41 | adding keeps the list free of two entries for the same chapter |
| SiteStorage.AddRecentAgain | site/src/storage/recent_chapters.rs:29-47 | when nothing is cut off, adding the same chapter twice is the same as adding it once |
| SiteStorage.AddRecentChapter | site/src/storage/recent_chapters.rs:29-56 | with usable storage the saved list is the new list; a missing or refusing storage leaves everything as it was |
| SiteStorage.ClearRecentChapters | site/src/storage/recent_chapters.rs:58-64 | the recent list reads as empty afterwards; the translation lists and the selection are untouched |
| SiteStorage.AddDownloaded | site/src/storage/translation_storage.rs:41-50 | a listed name changes nothing; otherwise the name is appended, and only a refused write is an error, which leaves the store unchanged |
| SiteStorage.AddDownloadedNoDuplicates | site/src/storage/translation_storage.rs:41-50 | a duplicate-free downloaded list stays duplicate-free |
| SiteStorage.RemoveDownloaded | site/src/storage/translation_storage.rs:56-62 | on success the name is no longer listed and the other names keep their order; only a refused write is an error |
| SiteStorage.RemoveAfterAdd | site/src/storage/translation_storage.rs:41-62 | adding a new name and removing it again gives back the downloaded list |
| SiteStorage.AddCustom | site/src/components/custom_translation_import.rs:27-36 | the new translation is last and is the only one with its short name; the rest keep their order |
| SiteStorage.RemoveCustom | site/src/components/custom_translation_import.rs:38-44 | on success no custom translation has the short name; the rest keep their order |
| SiteStorage.AddCustomOnce | site/src/components/custom_translation_import.rs:27-36 | after an import exactly one custom translation carries the new short name |
| SiteStorage.Uninstall | site/src/storage/translation_storage.rs:79-99 | a refused write ends it at once with that error; otherwise it succeeds exactly when the cache entry was removed, the name is unlisted, a "custom_" entry is dropped, and a selection of that name goes back to "sv" |
| SiteStorage.UninstallAfterAdd | site/src/storage/translation_storage.rs:41-99 | uninstalling a name just downloaded succeeds and leaves the downloaded list as before |
| SiteStorage.SwitchTranslation | site/src/storage/translation_storage.rs:64-77 | a name not downloaded is an error that keeps the current Bible; it succeeds exactly when the name is downloaded and loads, and then the loaded Bible is current |
| SiteStorage.ValidateImport | site/src/components/custom_translation_import.rs:113-201 | each form error is reported exactly when all earlier checks pass and its own fails (blank name, blank year, year not a u16, no file); otherwise the year and the file's text |
| SiteStorage.FirstFailure | site/src/components/custom_translation_import.rs:113-201 | no error exactly when every check passes; otherwise the error of a failing check preceded only by passing ones |
| SiteStorage.ValidateImportFirstFailure | site/src/components/custom_translation_import.rs:113-201 | the form's result is the first failing check of the ordered list, and success exactly when none fails |
| QueryParams.VersesValueOfPrefix | site/src/core/bible_core.rs:124-131 | a parameter yields a value exactly when it starts with "verses=", and the value is the text after it up to the next '=' |
| QueryParams.FirstVersesIndex | site/src/core/bible_core.rs:124-131 | the index of the first parameter that carries a verses value, with none before it; none exactly when no parameter carries one |
| QueryParams.FirstVersesValue | site/src/core/bible_core.rs:124-131 | a value is found exactly when some '&'-separated parameter starts with "verses=" |
| QueryParams.FilterRangesMembers | site/src/core/bible_core.rs:132-135 | a range is kept exactly when some comma-separated piece parses to it |
| QueryParams.VerseRanges | site/src/view_state.rs:986-1007 | a query without "verses=" gives no ranges |
| QueryParams.VerseRangesAgree | site/src/view_state.rs:986-1007 | the guarded reading of the view state and the unguarded one of parse_verse_ranges_from_url give the same ranges for every query |
| QueryParams.VersesSegment | site/src/view_state.rs:962-969 | the text after the first "verses=", present exactly when the query contains it |
| QueryParams.CurrentVerse | site/src/view_state.rs:961-983 | no "verses=" gives 0 (the heading); the verse is always a u32 |
| QueryParams.RangesParamChars | site/src/core/bible_core.rs:159-172 | a built verses value holds only digits, '-' and ',' |
| QueryParams.FilterRangeTexts | site/src/core/bible_core.rs:100-117 | parsing the texts of valid ranges gives the ranges back |
| QueryParams.SplitRangesParam | site/src/core/bible_core.rs:159-172 | splitting a built verses value on ',' gives one text per range |
| QueryParams.QueryRoundTrip | site/src/core/bible_core.rs:155-174 | the query to_path_with_verses writes reads back as the same ranges, and its current verse is the first range's start |
| QueryParams.CurrentVerseOfParam | site/src/instructions/processor.rs:24-44 | the current verse of a built verses value is the first range's start |
| ViewState.Initial | site/src/view_state.rs:67-106 | the start state has at most one of the references and themes panels open, no palette or comparison, no chapter, no query and no previous path |
| ViewState.ToggleRightSidebar | site/src/view_state.rs:495-503 | the references panel flips; opening it closes the themes panel; nothing else changes |
| ViewState.ToggleThemeSidebar | site/src/view_state.rs:512-520 | the themes panel flips; opening it closes the references panel; nothing else changes |
| ViewState.ToggleTwice | site/src/view_state.rs:483-557 | toggling the palette, comparison, verse numbers or left sidebar twice gives back the state |
| ViewState.ToggleRightTwice | site/src/view_state.rs:495-503 | toggling the references panel twice restores the state exactly when the themes panel was closed |
| ViewState.CloseAllSidebars | site/src/view_state.rs:937-942 | all four sidebars are closed and the palette, chapter, query, previous path, verse numbers and chosen book are kept |
| ViewState.CloseAllOverlays | site/src/view_state.rs:945-948 | the palette and all sidebars are closed; chapter and query are kept |
| ViewState.VersePath | site/src/view_state.rs:619-653 | verse 0 is the chapter path; verse v is the chapter path with "?verses=v" |
| ViewState.BeginningOfChapterResult | site/src/view_state.rs:610-617 | navigates exactly when there is a chapter, to its plain path |
| ViewState.EndOfChapterResult | site/src/view_state.rs:619-635 | navigates to the last verse exactly when a chapter with verses is open; the two failures carry their messages |
| ViewState.GoToVerseResult | site/src/view_state.rs:637-653 | navigates exactly when the verse exists in the open chapter, to that verse; otherwise fails |
| ViewState.ReturnPath | site/src/view_state.rs:655-669 | a chapter whose book segment is not empty is remembered as its path, '?', and the query |
| ViewState.ReturnPathOfNamedBook | site/src/view_state.rs:660-664 | re-adding one '/' after trimming leading slashes gives back the path of a chapter with a named book |
| ViewState.SwitchToPreviousChapterStep | site/src/view_state.rs:655-669 | no remembered path fails with its message and changes nothing; otherwise navigates there and remembers the current chapter's path and query |
| ViewState.NextVerseStep | site/src/view_state.rs:672-711 | from the heading the next verse is 1; inside a chapter it is the verse plus one; a result is never the heading |
| ViewState.NextVerseSteps | site/src/view_state.rs:672-711 | after at least one step the selection is a verse, unless the first step already found no next verse |
| ViewState.NextVerseStepsCompose | site/src/view_state.rs:684-705 | k + m steps forward are k steps, then m more from there |
| ViewState.NextVerseStepsInChapter | site/src/view_state.rs:684-705 | inside a chapter k steps from verse v land on verse v + k |
| ViewState.NextVerseFromHeading | site/src/view_state.rs:684-705 | k steps from the heading are k - 1 steps from verse 1 |
| ViewState.PreviousVerseStep | site/src/view_state.rs:713-766 | the previous of verse v > 1 is v - 1 in the same chapter; only the heading has no previous |
| ViewState.PreviousVerseStepsCompose | site/src/view_state.rs:725-760 | k + m steps back are k steps, then m more from there |
| ViewState.PreviousVerseStepsInChapter | site/src/view_state.rs:725-760 | inside a chapter k < v steps back from verse v land on verse v - k |
| ViewState.NextThenPreviousVerse | site/src/view_state.rs:672-766 | inside a chapter one step forward and one step back cancel out |
| ViewState.NextVerseResult | site/src/view_state.rs:672-711 | navigates exactly when a chapter is open; otherwise fails with "No current chapter" |
| ViewState.PreviousVerseResult | site/src/view_state.rs:713-766 | navigates exactly when a chapter is open; otherwise fails with "No current chapter" |
| ViewState.NextChapterResult | site/src/view_state.rs:768-781 | navigates exactly when get_nth_next_chapter_path finds a path, and to that path |
| ViewState.PreviousChapterResult | site/src/view_state.rs:783-796 | navigates exactly when get_nth_previous_chapter_path finds a path, and to that path |
| ViewState.NextBookStepsInBible | site/src/view_state.rs:798-818 | k next-book jumps end on a chapter of the Bible or stay where they were |
| ViewState.NextBookResult | site/src/view_state.rs:798-818 | navigates exactly when a chapter is open, to the chapter k next-book jumps away |
| ViewState.PreviousBookResult | site/src/view_state.rs:820-840 | navigates exactly when a chapter is open, to the chapter k previous-book jumps away |
| ViewState.MinStart | site/src/view_state.rs:855-861 | the smallest start among the selected ranges |
| ViewState.MaxEnd | site/src/view_state.rs:855-861 | the largest end among the selected ranges |
| ViewState.ExtendForwardRange | site/src/view_state.rs:842-885 | none exactly when the selection's last verse has no next verse; otherwise a range holding the selection's first verse and the verse after its last |
| ViewState.ExtendSelectionNextResult | site/src/view_state.rs:842-885 | navigates exactly when the forward extension exists, to the chapter path with that single range |
| ViewState.ExtendBackwardRange | site/src/view_state.rs:887-934 | succeeds exactly when the selection's first verse is above 1, to a range holding the verse before it and the selection's last; the two failures carry their messages |
| ViewState.ExtendSelectionPreviousResult | site/src/view_state.rs:887-934 | navigates exactly when the backward extension succeeds, to the chapter path with that single range |
| ViewState.ExtendForwardFromSingle | site/src/view_state.rs:842-885 | extending a single selected verse forward selects it and the next one |
| ViewState.ExtendForwardKeepsSelection | site/src/view_state.rs:842-885 | the extended range is from the smallest start to one past the largest end, so it keeps every verse selected before |
| ViewState.ExtendBackwardKeepsSelection | site/src/view_state.rs:887-934 | the extended range is from one before the smallest start to the largest end, so it keeps every verse selected before |
| ViewState.NavigationResult | site/src/view_state.rs:281-453 | a navigation instruction either navigates or fails, and goes to its handler |
| ViewState.ToggleStep | site/src/view_state.rs:281-453 | a toggle keeps the two right panels exclusive and leaves chapter, query, previous path and chosen book alone |
| ViewState.CloseOrSelectStep | site/src/view_state.rs:281-453 | each close instruction clears just its flag; choosing or clearing a book sets just the chosen book |
| ViewState.Execute | site/src/view_state.rs:281-453 | every instruction keeps the two right panels exclusive; navigation does not change the state; toggles answer Handled |
| ViewState.OtherStep | site/src/view_state.rs:281-453 | the remaining instructions keep the two right panels exclusive |
| ViewState.ExecuteCloseOrSelect | site/src/view_state.rs:281-453 | closing a panel or choosing a book changes that one field and answers Handled |
| ViewState.ExecuteGoToChapter | site/src/view_state.rs:281-453 | going to a chapter navigates to its path and closes the left sidebar on mobile only |
| ViewState.ExecuteSwitch | site/src/view_state.rs:281-453 | switching back is handled by the switch-to-previous-chapter handler |
| ViewState.ExecuteRandom | site/src/view_state.rs:281-453 | the random jumps navigate exactly when a target was drawn and change no state |
| ViewState.ExecuteWithMultiplier | site/src/view_state.rs:455-480 | instructions without a count run as execute does; counted moves keep the state and a count of 1 is a plain execute |
| ViewState.ApplyInstruction | site/src/view_state.rs:1154-1227 | instructions that need the page answer NotHandled and change nothing; the right panels stay exclusive |
| ViewState.ApplyAgreesWithExecute | site/src/view_state.rs:1154-1227 | on the instructions it handles, apply_instruction does what execute does |
| ViewState.ApplyInstructionWithMultiplier | site/src/view_state.rs:1230-1246 | instructions without a count go to apply_instruction; counted ones to the multiplier handlers |
| Processor.NextVerseFrom | site/src/instructions/processor.rs:109-127 | from the heading go to verse 1; inside the chapter to the next verse; from the last verse to the next chapter's heading |
| Processor.NextVersePath | site/src/instructions/processor.rs:109-127 | the next-verse target of the verse the query selects |
| Processor.PreviousVerseFrom | site/src/instructions/processor.rs:129-148 | from the heading go to the previous chapter; from verse 1 to the heading; otherwise to the verse before |
| Processor.PreviousVersePath | site/src/instructions/processor.rs:129-148 | the previous-verse target of the verse the query selects |
| Processor.MoveEffect | site/src/instructions/processor.rs:150-213 | moves never copy; verse steps and the jump to the heading always count as handled; the chapter and book jumps, end of chapter and go-to-verse are handled exactly when their target exists |
| Processor.SelectedVerses | site/src/instructions/processor.rs:218-228 | only verses of the chapter that lie in a selected range are collected, in chapter order |
| Processor.SelectedVersesComplete | site/src/instructions/processor.rs:218-228 | every verse of the chapter in a selected range is collected |
| Processor.SelectedVersesSingle | site/src/instructions/processor.rs:218-228 | when exactly one verse is selected, only it is collected |
| Processor.SelectedVersesNone | site/src/instructions/processor.rs:218-228 | when no verse lies in a range, nothing is collected |
| Processor.RawCopyText | site/src/instructions/processor.rs:215-245 | when no verse is selected the chapter name is copied |
| Processor.SelectSingleVerse | site/src/instructions/processor.rs:218-228 | in a chapter numbered 1, 2, 3, ... the range n-n collects verse n alone |
| Processor.CopyRawSingleVerse | site/src/instructions/processor.rs:215-245 | with "verses=n" in the query the raw copy is the text of verse n |
| Processor.ReferenceLabel | site/src/instructions/processor.rs:285-297 | the reference label of the ranges is the verses value to_path_with_verses writes for them |
| Processor.ReferenceLabelOfQuery | site/src/instructions/processor.rs:285-297 | the label of ranges read from a query built from valid ranges is that query's verses value |
| Processor.ReferenceParts | site/src/instructions/processor.rs:274-283 | book and chapter are the first and second word of the chapter name, "" and "1" when missing |
| Processor.ReferencePartsSplitsNumberedBook | site/src/instructions/processor.rs:274-283 | "1 Timothy 3" splits into book "1" and chapter "Timothy" |
| Processor.ReferencePartsIntended | site/src/instructions/processor.rs:274-283 | for a name of two or more words, the book is all but the last word and the chapter is the last word |
| Processor.ReferencePartsOfName | site/src/instructions/processor.rs:274-283 | the corrected split of "<book words> <n>" gives back the book words and n |
| Processor.ReferencePartsFixed | site/src/instructions/processor.rs:274-283 | the corrected split of "1 Timothy 3" is ("1 Timothy", "3") |
| Processor.LinkVersesParam | site/src/instructions/processor.rs:302-308 | the verses value copied into the link holds no '&' |
| Processor.LinkVersesRoundTrip | site/src/instructions/processor.rs:302-310 | for a query built from valid ranges the link carries the same verses value, which reads back as the same ranges |
| Processor.ReferenceCopyText | site/src/instructions/processor.rs:247-318 | no ranges copy the chapter name; ranges selecting no verse copy nothing; otherwise the copy starts with the verse texts and a blank line |
| Processor.ReferenceBlock | site/src/instructions/processor.rs:264-311 | the block starts with the selected verse texts joined by spaces and a blank line |
| Processor.ReferenceBlockIntended | site/src/instructions/processor.rs:264-311 | the corrected block starts the same way |
| Processor.BlockOf | site/src/instructions/processor.rs:264-311 | a block for any book and chapter starts with the verse texts and a blank line |
| Processor.ReferenceBlockIntendedOfName | site/src/instructions/processor.rs:274-311 | the corrected block for "<book words> <n>" names the whole book and n |
| Processor.TimothyReference | site/src/instructions/processor.rs:247-318 | for "1 Timothy 3" verse 2 the code writes "1 Timothy:2" and a link to "1/Timothy?verses=2"; the corrected parts give "1 Timothy 3:2" and "1_timothy/3?verses=2" |
| Processor.Process | site/src/instructions/processor.rs:87-107 | moves go to their handlers, the two copy instructions copy their text and count as handled, everything else is not handled |
| Processor.ProcessorAgreesOnJumps | site/src/instructions/processor.rs:150-213 | the chapter jumps, end of chapter and go-to-verse succeed in the same cases as the view state's handlers and go to the same place |
| Processor.ProcessorAgreesInsideChapter | site/src/instructions/processor.rs:109-148 | inside a chapter a verse step goes where the view state's verse step goes |
| Processor.NextAgrees | site/src/instructions/processor.rs:109-127 | one step forward before the chapter's last verse agrees with the view state's step |
| Processor.PreviousAgrees | site/src/instructions/processor.rs:129-148 | one step back after verse 1 agrees with the view state's step |
| Processor.ProcessorStopsAtHeading | site/src/instructions/processor.rs:109-127 | past the last verse the processor goes to the next chapter's heading while the view state goes to its first verse |
| KeyboardMap.ConstructorModifiers | site/src/instructions/keyboard_map.rs:24-83 | each constructor keeps the key and sets only its named modifiers; the five give five different combinations; "meta or ctrl" builds ctrl alone |
| KeyboardMap.MapToInstruction | site/src/instructions/keyboard_map.rs:89-139 | a go-to-verse comes only from an unmodified key that reads as a u32, and goes to that number |
| KeyboardMap.Named | site/src/instructions/keyboard_map.rs:104-137 | the named-key match never produces a go-to-verse |
| KeyboardMap.TableKeysNotNumbers | site/src/instructions/keyboard_map.rs:104-137 | no key of the table reads as a number, so the number rule never hides a table entry |
| KeyboardMap.TableEntry | site/src/instructions/keyboard_map.rs:104-137 | each combination of the key table is a case of the match, with the table's instruction |
| KeyboardMap.EntryFor | site/src/instructions/keyboard_map.rs:104-137 | every combination the match handles is in the table |
| KeyboardMap.NamedIsTable | site/src/instructions/keyboard_map.rs:104-137 | the match handles a combination exactly when the table lists it, and then gives the table's instruction |
| KeyboardMap.ShouldHandleIff | site/src/instructions/keyboard_map.rs:141-143 | a key is handled exactly when it is an unmodified number or a combination of the table, and table combinations map to their entry |
| KeyboardMap.NumberKeyGoesToVerse | site/src/instructions/keyboard_map.rs:91-101 | an unmodified number key goes to that verse |
| KeyboardMap.PaletteKeys | site/src/instructions/keyboard_map.rs:133-136 | ctrl-k and meta-k open the palette; with both, or with shift or alt as well, the key does nothing |
| VimKeys.ParseModifier | site/src/instructions/vim_keys.rs:49-55 | a modifier letter is known exactly when it is C, S, M or A |
| VimKeys.FromVimSyntax | site/src/instructions/vim_keys.rs:16-100 | only bracketed text can fail to read |
| VimKeys.RenderRoundTrip | site/src/instructions/vim_keys.rs:16-100 | reading back the vim-syntax name of a key with at most two modifiers gives the key |
| VimKeys.BracketedModifier | site/src/instructions/vim_keys.rs:44-57 | "<m-key>" with a known letter is the key with that one modifier |
| VimKeys.BracketedModifiers | site/src/instructions/vim_keys.rs:58-75 | "<m1-m2-key>" with known letters is the key with both modifiers |
| VimKeys.BracketParts | site/src/instructions/vim_keys.rs:24-26 | bracketed text is read from the pieces it joins with '-' |
| VimKeys.ArrowNames | site/src/instructions/vim_keys.rs:28-43 | "<Up>" and "<Down>" name the arrow keys |
| VimKeys.GreaterThanName | site/src/instructions/vim_keys.rs:28-43 | "<gt>" is a shifted '>' |
| VimKeys.ShiftedNames | site/src/instructions/vim_keys.rs:77-90 | outside brackets "?" and ":" carry shift |
| VimKeys.SpecialName | site/src/instructions/vim_keys.rs:28-43 | a bracketed name without '-' reads as the special key of that name |
| VimKeys.UnknownModifier | site/src/instructions/vim_keys.rs:49-55 | a modifier letter other than C, S, M and A makes the name unreadable |
| VimKeys.TooManyModifiers | site/src/instructions/vim_keys.rs:75-77 | three modifiers make four parts, which is an error |
| VimKeys.MatchesEvent | site/src/instructions/vim_keys.rs:102-113 | a key matches a press exactly when it is not a sequence and key and all four modifiers are equal |
| VimKeys.ParseInstructionIff | site/src/instructions/vim_keys.rs:141-172 | a name parses to an instruction exactly when the name table pairs them |
| VimKeys.ListedParses | site/src/instructions/vim_keys.rs:141-172 | every name of the table parses to its instruction |
| VimKeys.ParsedIsListed | site/src/instructions/vim_keys.rs:141-172 | every name that parses is a name of the table |
| VimKeys.ValueOf | site/src/instructions/vim_keys.rs:133-139 | a stored name is a mapping of the key; none exactly when no mapping has the key |
| VimKeys.GetInstruction | site/src/instructions/vim_keys.rs:133-139 | an instruction is the parse of a name mapped to the key |
| VimKeys.FirstKey | site/src/instructions/vim_keys.rs:203-210 | the first mapping whose key passes the test; none exactly when none does |
| VimKeys.FirstInstruction | site/src/instructions/vim_keys.rs:203-210 | an instruction found comes from a mapping whose key passes the test |
| VimKeys.ClearBuffers | site/src/instructions/vim_keys.rs:307-310 | afterwards nothing is pending |
| VimKeys.CurrentInputDisplay | site/src/instructions/vim_keys.rs:316-318 | the count followed by the pending keys |
| VimKeys.PendingIffDisplayed | site/src/instructions/vim_keys.rs:312-318 | something is pending exactly when the display is not empty |
| VimKeys.Multiplier | site/src/instructions/vim_keys.rs:226-230 | a count buffer that reads as a u32 is that count; the count is always a u32 |
| VimKeys.MapToInstruction | site/src/instructions/vim_keys.rs:191-304 | a completed instruction empties both buffers and carries a u32 count; the count buffer only ever holds digits |
| VimKeys.ModifiedPress | site/src/instructions/vim_keys.rs:193-216 | a modified press that completes empties the buffers; one that does not leaves them as they were |
| VimKeys.GPress | site/src/instructions/vim_keys.rs:232-249 | a completed "g" empties the buffers; the count is kept or cleared |
| VimKeys.OtherPress | site/src/instructions/vim_keys.rs:251-304 | a completed press empties the buffers; the count is kept or cleared |
| VimKeys.DigitExtendsCount | site/src/instructions/vim_keys.rs:218-224 | an unmodified digit is appended to the count and produces nothing |
| VimKeys.UnmatchedModifiedKeepsBuffers | site/src/instructions/vim_keys.rs:193-216 | a modified press no mapping matches changes nothing |
| VimKeys.SequenceGuardAlwaysHolds | site/src/instructions/vim_keys.rs:266-268 | the guard before the sequence search holds whenever it is reached, so the key is always appended or the buffers are cleared |
| VimKeys.KeptSequenceIsPrefix | site/src/instructions/vim_keys.rs:286-299 | a grown pending sequence is kept only while some mapped sequence starts with it |
| VimKeys.RunDigits | site/src/instructions/vim_keys.rs:218-224 | typing digits appends them to the count and produces nothing |
| VimKeys.CountThenG | site/src/instructions/vim_keys.rs:232-249 | typing n and then "g" goes to verse n with count 1 |
| VimKeys.DoubleG | site/src/instructions/vim_keys.rs:232-249 | "gg" goes to the beginning of the chapter, and "g", n, "g" does so with count n |
| VimKeys.RenderedBindingFires | site/src/instructions/vim_keys.rs:191-304 | pressing the key of the first mapping gives its instruction with the current count |
| CommandPalette.ParseVerseReference | site/src/components/command_palette.rs:48-87 | a reference needs a colon in the query; its chapter and verse are u32 numbers |
| CommandPalette.ParseLowered | site/src/components/command_palette.rs:52-86 | the trimmed, lower-cased query is a reference only when it holds a colon |
| CommandPalette.ParseNormalQuery | site/src/components/command_palette.rs:48-51 | a query that is already trimmed and lower case is parsed as it is |
| CommandPalette.ParseLoweredSplit | site/src/components/command_palette.rs:52-86 | the words before the colon are the book (joined by single spaces) and the chapter, and the text after it decides the verse |
| CommandPalette.ParseReferenceHead | site/src/components/command_palette.rs:48-87 | a lower-case "<book words> <chapter>:" followed by a tail reads as that book and chapter with the tail's verse |
| CommandPalette.ReferenceTail | site/src/components/command_palette.rs:68-84 | the verse is absent exactly when nothing follows the colon; a verse is a u32 |
| CommandPalette.ParseFullReference | site/src/components/command_palette.rs:802-850 | "<book> <chapter>:<verse>" reads back as that book, chapter and verse |
| CommandPalette.ParseRangeReference | site/src/components/command_palette.rs:72-78 | "<book> <chapter>:<a>-<b>" takes a, the start of the range, as the verse |
| CommandPalette.ParseIncompleteReference | site/src/components/command_palette.rs:68-71 | "<book> <chapter>:" reads as a reference without a verse |
| CommandPalette.NoColonNoReference | site/src/components/command_palette.rs:52-54 | a query without a colon is never a reference |
| CommandPalette.ScoreVerseNumber | site/src/components/command_palette.rs:89-114 | 1000 exactly for the searched number; a positive score exactly when the verse's digits contain the search's or the search's digits start with the verse's; 800 only for a different verse starting with the search |
| CommandPalette.ScoreVerseNumberBands | site/src/components/command_palette.rs:89-114 | each band by the digit strings: 1000 equal, 800 the verse's digits start with the shorter search's, 400 the search's digits start with the shorter verse's, 600 the search's digits occur later in the verse's, 0 otherwise |
| CommandPalette.ExactVerseRanksFirst | site/src/components/command_palette.rs:853-881 | the searched number itself outranks every other verse number |
| CommandPalette.SearchCharFixed | site/src/components/command_palette.rs:536-563 | folding and lower-casing a character twice changes nothing, nor does lower-casing first |
| CommandPalette.NormalizeIdempotent | site/src/components/command_palette.rs:536-563 | normalising text twice is normalising it once |
| CommandPalette.NormalizeIgnoresCase | site/src/components/command_palette.rs:536-563 | lower-casing before normalising changes nothing |
| CommandPalette.ArabicToRomanUnnumbered | site/src/components/command_palette.rs:565-571 | text without the digits 1, 2 and 3 is left as it is |
| CommandPalette.ArabicToRomanNumbered | site/src/components/command_palette.rs:759-768 | a leading "1 ", "2 " or "3 " becomes "i ", "ii " or "iii " |
| CommandPalette.RomanToArabicNumbered | site/src/components/command_palette.rs:771-780 | a leading numeral, capital or small, becomes its number |
| CommandPalette.RomanToArabicUnnumbered | site/src/components/command_palette.rs:573-583 | text without "I " and "i " is left as it is |
| CommandPalette.RomanToArabicInsideWord | site/src/components/command_palette.rs:573-583 | an "i " at the end of a longer word is rewritten to "1 " as well |
| CommandPalette.MaleachiRewritten | site/src/components/command_palette.rs:573-583 | "maleachi 3" becomes "maleach1 3" |
| CommandPalette.RomanWordsUnchanged | site/src/components/command_palette.rs:573-583 | with whole-word conversion, text in which no word starts with i or I is unchanged |
| CommandPalette.RomanWordsNumbered | site/src/components/command_palette.rs:771-780 | whole-word conversion turns a leading numeral word into its number |
| CommandPalette.MaleachiKept | site/src/components/command_palette.rs:573-583 | whole-word conversion keeps "maleachi 3" |
| CommandPalette.ContainsSubsequence | site/src/components/command_palette.rs:704-739 | a word found inside another occurs in it in order |
| CommandPalette.CharScan | site/src/components/command_palette.rs:704-739 | a successful scan of a non-empty query scores at least 2 |
| CommandPalette.ScanEmbeds | site/src/components/command_palette.rs:704-739 | a successful scan has found the query's characters in order |
| CommandPalette.EmbedsScan | site/src/components/command_palette.rs:704-739 | the greedy scan never misses a query whose characters occur in order |
| CommandPalette.CharacterScorePositive | site/src/components/command_palette.rs:704-739 | a non-empty query scores exactly when its characters occur in order in the text |
| CommandPalette.ScoreWordPositive | site/src/components/command_palette.rs:662-701 | a word scores exactly when its characters occur in order in the text word |
| CommandPalette.PositionalAtLeast | site/src/components/command_palette.rs:662-701 | a word in its own position never scores less than elsewhere |
| CommandPalette.ExactOutranksPartial | site/src/components/command_palette.rs:662-701 | an exact word outranks any longer word that contains it |
| CommandPalette.BestScore | site/src/components/command_palette.rs:629-641 | the best score of a query word over the text words, and one of them reaches it |
| CommandPalette.BestScorePositive | site/src/components/command_palette.rs:629-641 | a query word's best score is positive exactly when it occurs, in order, in some text word |
| CommandPalette.SumFound | site/src/components/command_palette.rs:627-645 | the sum exists exactly when no word scored 0, and is at least one per word |
| CommandPalette.SumFoundAtLeast | site/src/components/command_palette.rs:627-645 | scores of at least m each sum to at least m per word |
| CommandPalette.CalculateScore | site/src/components/command_palette.rs:613-659 | an empty query scores 0; a score needs query words |
| CommandPalette.CalculatePositive | site/src/components/command_palette.rs:613-659 | a text scores exactly when the query has words and each occurs, in order, in some text word |
| CommandPalette.CalculateFound | site/src/components/command_palette.rs:613-659 | a text scores exactly when the query has words and none of them scores 0 |
| CommandPalette.BestsPositive | site/src/components/command_palette.rs:627-645 | all best scores are positive exactly when every query word occurs in some text word |
| CommandPalette.SelfBests | site/src/components/command_palette.rs:662-701 | each word of a text scores at least 100 against the text itself |
| CommandPalette.ExactTextScore | site/src/components/command_palette.rs:613-659 | a text searched for itself scores at least 100 per word plus both bonuses |
| CommandPalette.MaxScore | site/src/components/command_palette.rs:600-610 | the highest score of the candidate pairs, reached by one of them |
| CommandPalette.FuzzyScore | site/src/components/command_palette.rs:585-611 | an empty query scores 0; otherwise the best score over the seven normalised and numeral-converted pairs, reached by one of them |
| CommandPalette.FuzzyScoreIntended | site/src/components/command_palette.rs:585-611 | the same with whole-word numeral conversion |
| CommandPalette.FuzzyIgnoresCase | site/src/components/command_palette.rs:986-993 | lower-casing the text, or the query, does not change the score |
| CommandPalette.FuzzyFinds | site/src/components/command_palette.rs:585-611 | when every query word occurs in order in some text word, the text scores |
| CommandPalette.FuzzyIntendedIgnoresCase | site/src/components/command_palette.rs:986-993 | the corrected score ignores the case of the text and of the query too |
| CommandPalette.FuzzyIntendedFinds | site/src/components/command_palette.rs:585-611 | the corrected score finds every text whose words hold the query's words in order |
| CommandPalette.FirstWordScores | site/src/components/command_palette.rs:929-941 | a two-word text whose first word is the query scores |
| CommandPalette.TwoWordsMiss | site/src/components/command_palette.rs:977-983 | a query with a character absent from both words of the text scores 0 |
| CommandPalette.NumeralInsideWordSearch | site/src/components/command_palette.rs:573-611 | a word ending in i before a second word is found by a query writing that i as 1; whole-word conversion finds nothing |
| CommandPalette.InsideWordWritten | site/src/components/command_palette.rs:573-611 | the written conversion finds such a text |
| CommandPalette.InsideWordIntended | site/src/components/command_palette.rs:573-611 | the corrected conversion scores such a text 0 |
| CommandPalette.MaleachiSearch | site/src/components/command_palette.rs:573-611 | "Maleachi 3" is found by "maleach1" as written and not with whole-word conversion |
| CrossReferences.FirstBooksRoundTrip | site/src/components/cross_references_sidebar.rs:246-273 | the display name of each first numbered book converts back to its canonical name |
| CrossReferences.SecondBooksRoundTrip | site/src/components/cross_references_sidebar.rs:246-273 | the display name of each second numbered book converts back to its canonical name |
| CrossReferences.ThirdJohnRevelationRoundTrip | site/src/components/cross_references_sidebar.rs:246-273 | "Revelation" and "3 John" survive display name and back |
| CrossReferences.RevelationTitles | site/src/components/cross_references_sidebar.rs:30-114 | the other titles of Revelation, English and Dutch, all convert to "Revelation" |
| CrossReferences.DutchAccentedNames | site/src/components/cross_references_sidebar.rs:59-100 | as written, the correctly spelled "Matteüs" and "I Samuël" come back unchanged; the corrected table maps them to "Matthew" and "1 Samuel" |
| CrossReferences.LinkedRange | site/src/components/cross_references_sidebar.rs:182-186 | the linked verses start at the reference's first verse (at least 1) and never end before they start; without a last verse the range is one verse |
| CrossReferences.ReferencePathParses | site/src/components/cross_references_sidebar.rs:176-194 | the link's path parses back to the book's display name and the chapter, at least 1 |
| CrossReferences.ReferenceQueryParses | site/src/components/cross_references_sidebar.rs:176-194 | the link's query selects exactly the linked range |
| CrossReferences.TranslatedBookName | site/src/components/cross_references_sidebar.rs:142-158 | without a current translation the name is kept |
| CrossReferences.ReferenceText | site/src/components/cross_references_sidebar.rs:160-174 | the text ends with a space and "chapter:start" or "chapter:start-end"; without a translation it starts with the book name |
| CrossReferences.LocationParses | site/src/components/cross_references_sidebar.rs:160-174 | the location splits at ':' into the chapter and the verse span, which read back as the chapter and the range |
| CrossReferences.VerseSpanParses | site/src/components/cross_references_sidebar.rs:160-174 | the verse span reads back as one verse, as start-end when start <= end, and as nothing otherwise |
| CrossReferences.AbsI32 | site/src/components/cross_references_sidebar.rs:240 | the 32-bit absolute value is the magnitude, except that the lowest value stays itself |
| CrossReferences.VotesRoundTrip | site/src/components/cross_references_sidebar.rs:236-244 | the vote label of every count but the lowest reads back as that count |
| CrossReferences.ParseMarkedNumber | site/src/components/cross_references_sidebar.rs:236-244 | a marker, a space and a number read back as the number, negated after the down marker |
| CrossReferences.LowestVotesLabel | site/src/components/cross_references_sidebar.rs:240 | the lowest count is labelled with the down marker and "-2147483648", which does not read back |
| CrossReferences.VotesMarkersAsWritten | site/src/components/cross_references_sidebar.rs:236-244 | as written the up marker is the four characters the thumbs-up emoji's UTF-8 bytes stand for in Mac Roman, not the emoji |
| CrossReferences.InsertByVotes | site/src/components/cross_references_sidebar.rs:374 | inserting into a list sorted by votes keeps it sorted and adds exactly that reference |
| CrossReferences.SortByVotes | site/src/components/cross_references_sidebar.rs:374 | the result is sorted by votes, highest first, and is a permutation of the input |
| CrossReferences.PreloadFrom | site/src/components/cross_references_sidebar.rs:366-378 | from a given verse to 200, exactly the verses with references are loaded, each sorted by votes and a permutation of the table's list |
| CrossReferences.ChapterReferences | site/src/components/cross_references_sidebar.rs:349-390 | exactly the verses 1 to 200 with references are loaded, each sorted by votes and a permutation of the table's list |
| CrossReferences.VerseReferencesOfChapter | site/src/components/cross_references_sidebar.rs:349-390 | verse 0 and verses after 200 show nothing; up to 200 a verse shows references exactly when the table has some, highest votes first |
| CrossReferences.NextIndex | site/src/components/cross_references_sidebar.rs:463-470 | ctrl-J selects the next reference, wrapping to the first |
| CrossReferences.PreviousIndex | site/src/components/cross_references_sidebar.rs:505-512 | ctrl-K selects the previous reference, wrapping to the last |
| CrossReferences.PreviousOfNext | site/src/components/cross_references_sidebar.rs:463-512 | ctrl-J then ctrl-K, or the other way round, returns to the same reference |
| CrossReferences.NextTimes | site/src/components/cross_references_sidebar.rs:463-470 | any number of ctrl-J presses keeps the selection in the list |
| CrossReferences.NextTimesIsModular | site/src/components/cross_references_sidebar.rs:463-470 | n ctrl-J presses move the selection n places round the list |
| CrossReferences.HandleReferenceKey | site/src/components/cross_references_sidebar.rs:414-591 | nothing happens while the command palette is open; otherwise a selection is always in the list and is made exactly by Ctrl+J or Ctrl+K without Shift on a valid selection; Enter opens exactly the selected reference and closes the right sidebar exactly on a mobile screen; an out-of-range selection is reset exactly on the three handled keys when references exist and no navigation is running |
| CrossReferences.KeySelectionRoundTrip | site/src/components/cross_references_sidebar.rs:414-591 | with the command palette closed, ctrl-J selects the next, ctrl-K from there selects the original, and Enter opens its link, closing the sidebar exactly on mobile |
| CrossReferences.PaletteTakesKeys | site/src/components/cross_references_sidebar.rs:420-422 | while the command palette is open every press is ignored; with it closed, a handled press without Shift on a valid selection always has an effect |
| TranslationComparison.ToggleSelection | site/src/components/translation_comparison.rs:246-256 | the key is selected afterwards exactly when it was not before; every other key keeps its state |
| TranslationComparison.ToggleTwice | site/src/components/translation_comparison.rs:246-256 | ticking a box twice gives back the same set of keys, and the same list when the key was not selected |
| TranslationComparison.ToggleDistinct | site/src/components/translation_comparison.rs:246-256 | the selection never lists a key twice |
| TranslationComparison.FindTranslation | site/src/components/translation_comparison.rs:120-124 | the first catalogue entry with the short name, or none exactly when no entry has it |
| TranslationComparison.ComparisonName | site/src/components/translation_comparison.rs:120-124 | the name of the first catalogue entry with the key, or the key itself when there is none |
| TranslationComparison.CheckboxLabel | site/src/components/translation_comparison.rs:232-236 | "name (short name)" of the first catalogue entry with the key, or the key itself |
| TranslationComparison.CheckboxLabelOfKnown | site/src/components/translation_comparison.rs:232-236 | a known key's label is its comparison name followed by the key in brackets |
| TranslationComparison.FilterVerses | site/src/components/translation_comparison.rs:108-117 | a verse is shown exactly when it is in the chapter and its number lies in some selected range |
| TranslationComparison.FilterKeepsOrder | site/src/components/translation_comparison.rs:108-117 | the shown verses keep the chapter's order |
| TranslationComparison.FilterVersesBounds | site/src/components/translation_comparison.rs:108-117 | no ranges show no verses; ranges covering every verse show the whole chapter |
| TranslationComparison.Compare | site/src/components/translation_comparison.rs:104-132 | there is at most one column per selected translation |
| TranslationComparison.Columns | site/src/components/translation_comparison.rs:104-132 | each selected key gives its own column, or none when it does not load |
| TranslationComparison.CompareMembers | site/src/components/translation_comparison.rs:104-132 | a column is shown exactly when a selected translation has the chapter, and holds its name and its selected verses |
| TranslationComparison.CompareAllLoaded | site/src/components/translation_comparison.rs:104-132 | when every selected translation loads, the columns follow the selection one for one |
| TranslationComparison.FormatVerseRanges | site/src/components/translation_comparison.rs:375-387 | the label is empty exactly when there are no ranges |
| TranslationComparison.LabelJoin | site/src/components/translation_comparison.rs:375-387 | the label is the range texts joined by ", " |
| TranslationComparison.LabelRoundTrip | site/src/components/translation_comparison.rs:375-387 | splitting the label at ',' and parsing the pieces gives the ranges back |
| TranslationMap.GetIgnoresCase | site/src/translation_map/translation.rs:175-176 | lookup ignores case: lower-casing the input first changes nothing |
| TranslationMap.TranslatesChapter | site/src/translation_map/translation.rs:178-194 | "<book words> <n>" whose words joined by '_' name a book gives the book's display name, a space and n |
| TranslationMap.SingleWord | site/src/translation_map/translation.rs:196-200 | a single word is looked up as a book key after lower-casing |
| TranslationMap.UnknownBook | site/src/translation_map/translation.rs:175-201 | when neither the words before the number nor the whole input name a book there is no translation |
| TranslationMap.Fallback | site/src/translation_map/translation.rs:175-200 | when the input has fewer than two words, its last word is not a u32, or the words before it name no book, the result is the book lookup of the whole lower-cased input with spaces replaced by '_' |
| TranslationMap.SpacedName | site/src/translation_map/translation.rs:175-200 | input that lower-cases to words joined by single spaces, the last not a u32, is looked up as the words joined by '_' |
| TranslationMap.SpacedBookName | site/src/translation_map/translation.rs:196-200 | "I Samuel" without a chapter number translates to the display name of the first book of Samuel |
| TranslationMap.UnlistedKeys | site/src/translation_map/translation.rs:97-173 | keys outside the table, such as "Genesis" in capitals or "iv_kings", name no book |
| TranslationMap.NumberedAliases | site/src/translation_map/translation.rs:97-173 | the five spellings of each numbered book (first_, 1_, 1, i_, i) name the same book |
| LinkedMarkdown.TranslationInfo | site/src/instructions/logic/linked_markdown_export.rs:59-68 | the current translation is used when there is one; otherwise the default "Unknown Bible" / "unknown" record |
| LinkedMarkdown.TranslatedName | site/src/instructions/logic/linked_markdown_export.rs:9-34 | without a current translation or without a first language the book name is returned unchanged |
| LinkedMarkdown.Slug | site/src/instructions/logic/linked_markdown_export.rs:72 | lower-casing then replacing spaces keeps the length, leaves no space, and maps each character independently |
| LinkedMarkdown.PreviousPosition | site/src/instructions/logic/linked_markdown_export.rs:188-216 | the previous link targets an existing chapter, and is absent exactly for the first chapter of the first book or of a book after an empty book |
| LinkedMarkdown.NextPosition | site/src/instructions/logic/linked_markdown_export.rs:218-243 | the next link targets an existing chapter, and is absent exactly for the last chapter of the last book or of a book before an empty book |
| LinkedMarkdown.NeighboursInverse | site/src/instructions/logic/linked_markdown_export.rs:188-243 | following a next link and then its previous link returns to the same chapter, and the other way round |
| LinkedMarkdown.EndsOfTheBible | site/src/instructions/logic/linked_markdown_export.rs:188-243 | when no book is empty, only the very first chapter lacks a previous link and only the very last lacks a next link |
| LinkedMarkdown.Kinds | site/src/instructions/logic/linked_markdown_export.rs:80-254 | every file the export writes is the index, an existing book or an existing chapter |
| LinkedMarkdown.BooksKinds | site/src/instructions/logic/linked_markdown_export.rs:118-167 | the files written from a given book onwards each name an existing book or chapter |
| LinkedMarkdown.ChapterKinds | site/src/instructions/logic/linked_markdown_export.rs:169-253 | the chapter files written for a book each name an existing chapter of it |
| LinkedMarkdown.Entries | site/src/instructions/logic/linked_markdown_export.rs:80-253 | one (name, content) entry per file kind, in the order the export writes them |
| LinkedMarkdown.Insert | site/src/instructions/logic/linked_markdown_export.rs:107-253 | inserting the entries into the map gives every entry's name a key and never more keys than entries |
| LinkedMarkdown.InsertKeys | site/src/instructions/logic/linked_markdown_export.rs:107-253 | every key of the resulting map is the name of some entry: the map holds nothing else |
| LinkedMarkdown.Names | site/src/instructions/logic/linked_markdown_export.rs:107-253 | the names list the entries' names position by position |
| LinkedMarkdown.InsertDistinct | site/src/instructions/logic/linked_markdown_export.rs:107-253 | with distinct names the map has one key per entry and each name maps to its own content |
| LinkedMarkdown.InsertSize | site/src/instructions/logic/linked_markdown_export.rs:107-253 | with distinct names no insertion overwrites another: the map has as many keys as entries |
| LinkedMarkdown.InsertContent | site/src/instructions/logic/linked_markdown_export.rs:107-253 | with distinct names each entry's content is what its name maps to |
| LinkedMarkdown.Export | site/src/instructions/logic/linked_markdown_export.rs:44-271 | the folder name has no spaces and the index "<folder>.md" is among the files |
| LinkedMarkdown.ChapterKindsLength | site/src/instructions/logic/linked_markdown_export.rs:169-254 | one chapter file per chapter of the book |
| LinkedMarkdown.BooksKindsLength | site/src/instructions/logic/linked_markdown_export.rs:118-255 | one book file per book plus one file per chapter of the remaining books |
| LinkedMarkdown.FileCount | site/src/instructions/logic/linked_markdown_export.rs:107-264 | the export holds at most 1 + books + chapters files, exactly that many when no two file names collide |
| LinkedMarkdown.ChapterKindListed | site/src/instructions/logic/linked_markdown_export.rs:170-253 | every chapter of a book from a given index onwards gets a file |
| LinkedMarkdown.KindsListed | site/src/instructions/logic/linked_markdown_export.rs:118-255 | every book and every one of its chapters gets a file |
| LinkedMarkdown.Written | site/src/instructions/logic/linked_markdown_export.rs:107-253 | a file that is produced ends up in the map under its name |
| LinkedMarkdown.ChapterWritten | site/src/instructions/logic/linked_markdown_export.rs:173-178 | every chapter's "<slug> <n> <short>.md" file is in the export |
| LinkedMarkdown.LinksResolve | site/src/instructions/logic/linked_markdown_export.rs:96-243 | the book-index and chapter-index links, and the previous and next links, all point at files that the export contains |
| LinkedMarkdown.IndexFile | site/src/instructions/logic/linked_markdown_export.rs:80-105 | the first file is the index under the folder name, starting with the translation's title and ending with the book links |
| LinkedMarkdown.ChapterFileShape | site/src/instructions/logic/linked_markdown_export.rs:181-251 | a chapter file starts with "# <book> <n>" and ends with one "<verse> <text>" line per verse |
| BookNames.Parse | rust/peter/src/translation/v1/book_name.rs:116-228 | the text is trimmed before matching, and an unknown name is reported with the trimmed text |
| BookNames.ParseTrimEqual | rust/peter/src/translation/v1/book_name.rs:119-122 | two inputs that trim to the same text parse to the same outcome |
| BookNames.ParsePadded | rust/peter/src/translation/v1/book_name.rs:122 | surrounding whitespace never changes which book, or which error, a spelling gives |
| BookNames.ParseBlank | rust/peter/src/translation/v1/book_name.rs:122-226 | blank input names no book and the error carries the empty text |
| BookNames.ParseOfTrimmed | rust/peter/src/translation/v1/book_name.rs:122-226 | already-trimmed text parses to the book its spelling lists, else to an error carrying the text itself |
| BookNames.SamuelSpellings | rust/peter/src/translation/v1/book_name.rs:134 | "1Samuel", "I Samuel" and "FirstSamuel" all name the first book of Samuel |
| BookNames.RejectedSpellings | rust/peter/src/translation/v1/book_name.rs:223-226 | matching is exact: a longer title is not a spelling of Revelation |
| BookNames.ParseVariantName | rust/peter/src/translation/v1/book_name.rs:3-228 | every one of the 78 books parses back from its own variant name: the parser covers the whole enum |
| PeterCheck.ToError | rust/peter/src/translation/v1/check.rs:104-115 | Ok exactly when there is no error; one error is returned as itself; several are wrapped with their count |
| PeterCheck.ToErrorReports | rust/peter/src/translation/v1/check.rs:104-115 | a failing result's error is one of the errors found, or the wrapper holding all of them with a count of at least two |
| PeterCheck.RangesOverlapShared | rust/peter/src/translation/v1/check.rs:466-469 | two proper ranges overlap exactly when some verse lies in both, whichever order they are given in |
| PeterCheck.SpanMembers | rust/peter/src/translation/v1/check.rs:412 | an inclusive range start..=end holds exactly the numbers between its ends |
| PeterCheck.Missing | rust/peter/src/translation/v1/check.rs:444-453 | the missing numbers are, in ascending order, exactly those between the bounds that are not present |
| PeterCheck.Least | rust/peter/src/translation/v1/check.rs:431-432 | the first element after sorting is the smallest |
| PeterCheck.Greatest | rust/peter/src/translation/v1/check.rs:431-433 | the last element after sorting is the largest |
| PeterCheck.AddNumber | rust/peter/src/translation/v1/check.rs:372-381 | recording a verse number appends it to the list of numbers and adds it to the seen set |
| PeterCheck.AddNumbers | rust/peter/src/translation/v1/check.rs:412-423 | the numbers of a range are recorded in ascending order |
| PeterCheck.Overlaps | rust/peter/src/translation/v1/check.rs:396-407 | every error the overlap loop raises is an overlap in this book and chapter |
| PeterCheck.ScanVerse | rust/peter/src/translation/v1/check.rs:366-426 | one verse records its single number, or all numbers of its proper range, or none for an inverted range |
| PeterCheck.ScanFrom | rust/peter/src/translation/v1/check.rs:366-427 | the verse loop records the numbers of all verses in order |
| PeterCheck.ValidateChapterVerses | rust/peter/src/translation/v1/check.rs:355-464 | every verse is counted; the start warning is given exactly when the smallest number is not 1 |
| PeterCheck.GapErrors | rust/peter/src/translation/v1/check.rs:429-463 | at most one error after the loop, a verse gap, and none for a chapter without numbers |
| PeterCheck.AddNumbersDuplicates | rust/peter/src/translation/v1/check.rs:412-423 | recording numbers adds only duplicate-verse errors for this chapter |
| PeterCheck.AddNumberConsistent | rust/peter/src/translation/v1/check.rs:372-381 | after recording a number, a number is seen exactly when recorded, and reported duplicate exactly when recorded twice |
| PeterCheck.AddNumbersConsistent | rust/peter/src/translation/v1/check.rs:412-423 | the same invariant holds across a whole range |
| PeterCheck.CheckedRange | rust/peter/src/translation/v1/check.rs:394-409 | checking a proper range against the earlier ones only appends overlap errors and records no number |
| PeterCheck.ScanVerseAppends | rust/peter/src/translation/v1/check.rs:366-426 | one verse only appends errors of the verse loop, and an invalid-range error only for an inverted range |
| PeterCheck.ScanVerseInvalid | rust/peter/src/translation/v1/check.rs:385-393 | an invalid-range error for (a, e) appears exactly when this verse is the range a..=e with a > e, or it was already there |
| PeterCheck.CheckedRangeConsistent | rust/peter/src/translation/v1/check.rs:394-409 | the overlap check keeps the seen/duplicate invariant |
| PeterCheck.ScanVerseConsistent | rust/peter/src/translation/v1/check.rs:366-426 | one verse keeps the seen/duplicate invariant |
| PeterCheck.ScanFromAppends | rust/peter/src/translation/v1/check.rs:366-427 | the verse loop only appends errors of the kinds it raises |
| PeterCheck.ScanFromConsistent | rust/peter/src/translation/v1/check.rs:366-427 | the verse loop keeps the seen/duplicate invariant |
| PeterCheck.ScanFromInvalid | rust/peter/src/translation/v1/check.rs:366-427 | the loop reports an inverted range exactly where one occurs |
| PeterCheck.OverlapsFound | rust/peter/src/translation/v1/check.rs:396-407 | an overlap error naming an earlier range is raised exactly when that range was recorded and overlaps the new one |
| PeterCheck.OverlapsSound | rust/peter/src/translation/v1/check.rs:396-407 | every overlap error names the new range, a recorded range, and a real overlap |
| PeterCheck.RepeatsGrow | rust/peter/src/translation/v1/check.rs:363-422 | once a number is recorded twice, recording more keeps it so |
| PeterCheck.AddNumbersRecorded | rust/peter/src/translation/v1/check.rs:409-423 | recording numbers keeps "each recorded range is proper and its numbers are recorded" |
| PeterCheck.OverlapRepeats | rust/peter/src/translation/v1/check.rs:396-423 | an overlap with a recorded range means some verse number is recorded twice once the new range is added |
| PeterCheck.ProperRangeOverlaps | rust/peter/src/translation/v1/check.rs:394-423 | after a proper range, any overlap error so far comes with a repeated verse number |
| PeterCheck.ProperRangeRecorded | rust/peter/src/translation/v1/check.rs:394-423 | after a proper range, the range invariant still holds |
| PeterCheck.ScanVerseRecorded | rust/peter/src/translation/v1/check.rs:366-426 | one verse keeps the range invariant |
| PeterCheck.ScanFromRecorded | rust/peter/src/translation/v1/check.rs:366-427 | the verse loop keeps the range invariant |
| PeterCheck.ChapterVerseSplit | rust/peter/src/translation/v1/check.rs:355-464 | a chapter's errors are those of the verse loop followed by at most its gap error |
| PeterCheck.ChapterVerseDuplicates | rust/peter/src/translation/v1/check.rs:370-423 | a duplicate-verse error for n is raised exactly when n is recorded at least twice |
| PeterCheck.ChapterVerseInvalid | rust/peter/src/translation/v1/check.rs:383-393 | an invalid-range error is raised exactly for an inverted range in the chapter |
| PeterCheck.ChapterVerseGap | rust/peter/src/translation/v1/check.rs:429-463 | the verse-gap error lists exactly the numbers missing between the smallest and largest, and is raised only when there are some |
| PeterCheck.FirstScanError | rust/peter/src/translation/v1/check.rs:366-427 | the first error of the verse loop is a duplicate, an inverted range or an overlap in this chapter |
| PeterCheck.GapErrorsNone | rust/peter/src/translation/v1/check.rs:429-463 | no gap error exactly when no number between the smallest and largest is missing |
| PeterCheck.CleanNoRepeats | rust/peter/src/translation/v1/check.rs:370-423 | an error-free chapter records no verse number twice |
| PeterCheck.CleanNoInverted | rust/peter/src/translation/v1/check.rs:383-393 | an error-free chapter has no inverted range |
| PeterCheck.CleanNoGaps | rust/peter/src/translation/v1/check.rs:429-463 | an error-free chapter misses no number between its smallest and largest |
| PeterCheck.ChapterVerseCleanIf | rust/peter/src/translation/v1/check.rs:355-464 | no repeated number, no inverted range and no gap mean no error |
| PeterCheck.ChapterVerseClean | rust/peter/src/translation/v1/check.rs:355-464 | a chapter's verses pass exactly when no number repeats, no range is inverted and no number is missing |
| PeterCheck.ValidateChapter | rust/peter/src/translation/v1/check.rs:324-342 | an empty chapter is a single empty-chapter error; every verse is counted |
| PeterCheck.MissingChapters | rust/peter/src/translation/v1/check.rs:298-306 | one missing-chapter error per missing number, in order |
| PeterCheck.ChapterGapMissing | rust/peter/src/translation/v1/check.rs:277-307 | a chapter is reported missing exactly when it lies between two present chapters without being present |
| PeterCheck.ChapterGapNone | rust/peter/src/translation/v1/check.rs:277-307 | no gap errors exactly when no chapter between the first and last is missing |
| PeterCheck.ValidateChapters | rust/peter/src/translation/v1/check.rs:320-348 | every chapter and verse is counted, and a chapter is listed as bad exactly when it added an error |
| PeterCheck.ValidateBookChapters | rust/peter/src/translation/v1/check.rs:265-352 | the gap errors come first, then the start warning when the first chapter is not 1, then the chapters in key order |
| PeterCheck.ValidateBook | rust/peter/src/translation/v1/check.rs:244-262 | an empty book is a single empty-book error and counted as having errors; otherwise every chapter and verse is counted |
| PeterCheck.TallyBooks | rust/peter/src/translation/v1/check.rs:238-258 | the tallies count every book, chapter and verse |
| PeterCheck.AddBook | rust/peter/src/translation/v1/check.rs:240-258 | one book appends its errors and adds its counts |
| PeterCheck.ValidateBooks | rust/peter/src/translation/v1/check.rs:226-262 | the statistics give the total numbers of books, chapters and verses |
| PeterCheck.ChapterClean | rust/peter/src/translation/v1/check.rs:324-342 | a chapter passes exactly when it has verses, no repeated number, no inverted range and no gap |
| PeterCheck.ChaptersClean | rust/peter/src/translation/v1/check.rs:320-348 | the chapter loop raises nothing exactly when every chapter is sound |
| PeterCheck.BookClean | rust/peter/src/translation/v1/check.rs:244-262 | a book passes exactly when it has chapters, none is missing, and each is sound |
| PeterCheck.TallyClean | rust/peter/src/translation/v1/check.rs:238-258 | the book loop raises nothing exactly when no book adds an error |
| PeterCheck.BooksValid | rust/peter/src/translation/v1/check.rs:226-262 | the whole check passes exactly when every book is sound |
| PeterCheck.GapOnlyBookNotCounted | rust/peter/src/translation/v1/check.rs:249-255 | a book whose only fault is a missing chapter fails the check but is not counted among the books with errors |
| PeterCheck.GapOnlyBookStatistics | rust/peter/src/translation/v1/check.rs:249-262 | such a book alone makes the check fail while the count of books with errors stays 0 |
| PeterCheck.GapOnlyBookExample | rust/peter/src/translation/v1/check.rs:277-307 | a book with chapters 1 and 3, each holding just verse 1, is such a book |
| PeterCheck.BooksWithErrorsMissesGap | rust/peter/src/translation/v1/check.rs:249-262 | for that book the check fails with zero books counted as having errors |
| PeterCheck.BadBooksIntended | rust/peter/src/translation/v1/check.rs:249-258 | the intended set of bad books holds exactly the books that added some error |
| PeterCheck.ValidateBooksIntended | rust/peter/src/translation/v1/check.rs:226-262 | with every failing book counted, the errors are unchanged and zero books with errors means the check passes |
| PeterCheck.Check | rust/peter/src/translation/v1/check.rs:204-214 | remote storage is refused; local books pass exactly when validation finds no error |
| PeterCheck.Validate | rust/peter/src/translation/v1/check.rs:216-222 | remote storage is refused; local books give the report of validating them, whose statistics count all their books, chapters and verses |
| PeterCheck.ValidateSound | rust/peter/src/translation/v1/check.rs:216-262 | the report on local books is clean exactly when every book is sound |
| PeterCheck.CheckAgreesWithValidate | rust/peter/src/translation/v1/check.rs:204-222 | check succeeds exactly when validate succeeds and its result is valid |
| PeterConversion.ParseVerseId | rust/peter/src/translation/v1/conversion.rs:42-73 | a single verse keeps the given number; a range is proper and fits in u32; the only error is an inverted range; text without a leading digit or without a dash is always single |
| PeterConversion.ParseVerseIdParts | rust/peter/src/translation/v1/conversion.rs:43-69 | text split at the first dash and the first following space is a range of the two trimmed numbers when both parse, an error when inverted, and single otherwise |
| PeterConversion.SplitAt | rust/peter/src/translation/v1/conversion.rs:44-54 | the first occurrence of a character after a head free of it splits the text exactly at the head's end |
| PeterConversion.ParseVerseIdSpan | rust/peter/src/translation/v1/conversion.rs:42-73 | text opening with "a-b " is read as the range a..=b, or as an invalid range when a > b, whatever follows |
| PeterConversion.ParseVerseIdNoSpace | rust/peter/src/translation/v1/conversion.rs:51-69 | "a-b" with no space after the second number is not a range: the verse stays single |
| PeterConversion.Verses | rust/peter/src/translation/v1/conversion.rs:139-146 | one v1 verse per v0 verse, keeping the text as content and having no footnotes |
| PeterConversion.Sections | rust/peter/src/translation/v1/conversion.rs:148-155 | a verse id has a section heading exactly when some verse with that id has a non-empty name different from its text |
| PeterConversion.SectionsLastWins | rust/peter/src/translation/v1/conversion.rs:148-155 | collecting into a map keeps the name of the last verse with a given id |
| PeterConversion.ConvertChapter | rust/peter/src/translation/v1/conversion.rs:111-164 | an empty chapter is refused; a converted chapter keeps its number, one verse per v0 verse with its parsed id and text, and its sections; an error comes from some verse |
| PeterConversion.FirstRepeated | rust/peter/src/translation/v1/conversion.rs:93-96 | the duplicate reported is the first book whose name occurs more than once |
| PeterConversion.NotDistinctRepeated | rust/peter/src/translation/v1/conversion.rs:90-95 | when the names are not all distinct some book's name occurs twice, so the search for the duplicate succeeds |
| PeterConversion.Pairing | rust/peter/src/translation/v1/conversion.rs:79-87 | each book is paired with its own parsed name |
| PeterConversion.ConvertBook | rust/peter/src/translation/v1/conversion.rs:103-174 | an empty book is refused; a converted book is stored under its parsed name, keeps its name and has no introduction |
| PeterConversion.ConvertBookChapters | rust/peter/src/translation/v1/conversion.rs:108-172 | a converted book holds exactly the chapter numbers of the v0 book |
| PeterConversion.ConvertBooks | rust/peter/src/translation/v1/conversion.rs:78-178 | a successful conversion yields books in ascending key order |
| PeterConversion.UnknownNameFirst | rust/peter/src/translation/v1/conversion.rs:79-87 | the first book whose name does not parse decides the error |
| PeterConversion.DuplicateRefused | rust/peter/src/translation/v1/conversion.rs:89-99 | two books with the same parsed name make the conversion fail with a duplicate-book error |
| PeterConversion.ConvertedEntry | rust/peter/src/translation/v1/conversion.rs:101-177 | after success each v0 book is stored under its parsed name as its converted book |
| PeterConversion.PairsDistinct | rust/peter/src/translation/v1/conversion.rs:89-99 | distinct names give distinct keys, so no converted book overwrites another |
| PeterConversion.ConvertedBook | rust/peter/src/translation/v1/conversion.rs:101-177 | after success each v0 book is found under its name, with its name, no introduction and exactly its chapter numbers |
| PeterConversion.ConvertedComplete | rust/peter/src/translation/v1/conversion.rs:104-131 | success means every book had chapters, every chapter had verses, and every verse's chapter field matched |
| PeterConversion.ConvertTranslation | rust/peter/src/translation/v1/conversion.rs:181-203 | the translation converts exactly when its books do, with the placeholder metadata and local storage of those books |
| PeterConversion.BuildV1 | rust/peter/src/translation/v1/conversion.rs:206-211 | the books are stored locally with the given metadata |
| PeterStorage.IsLocal | rust/peter/src/storage.rs:79-81 | storage is local exactly when it holds local data |
| PeterStorage.IsRemote | rust/peter/src/storage.rs:84-86 | storage is remote exactly when it has a URL |
| PeterStorage.Url | rust/peter/src/storage.rs:89-94 | a URL is returned only for remote storage, and it is that storage's URL |
| PeterStorage.LocalData | rust/peter/src/storage.rs:97-102 | data is returned only for local storage, and it is that storage's data |
| PeterStorage.LocalXorRemote | rust/peter/src/storage.rs:79-86 | every storage is exactly one of local and remote |
| PeterStorage.AccessorsRoundTrip | rust/peter/src/storage.rs:89-114 | the accessors give back what the constructors were given, and nothing for the other variant |
| PeterStorage.Fetch | rust/peter/src/storage.rs:37-46 | local storage yields its data; remote storage is downloaded from its URL |
| PeterStorage.FetchFromUrl | rust/peter/src/storage.rs:49-76 | a failed launch is a network error, an unsuccessful exit an HTTP error with its status, and success requires valid UTF-8 that parses to the value |
| PeterStorage.StatusCode | rust/peter/src/storage.rs:68 | the status is the exit code truncated to u16, 0 when there is none |
| PeterStorage.NegativeCodeWraps | rust/peter/src/storage.rs:68 | an exit code of -1 reports status 65535 |
| PeterStorage.IagonFromStr | rust/peter/src/storage.rs:117-120 | remote storage is created exactly when the URL parses, and it holds the parsed URL |
| PeterVerse.CompareNat | rust/peter/src/translation/v1/verse.rs:22 | u32 comparison: Less, Equal and Greater exactly when smaller, equal and larger |
| PeterVerse.Cmp | rust/peter/src/translation/v1/verse.rs:19-41 | different left bounds decide the order by themselves |
| PeterVerse.PartialCmp | rust/peter/src/translation/v1/verse.rs:43-47 | the partial order is always defined and agrees with the total order |
| PeterVerse.CmpIsKeyOrder | rust/peter/src/translation/v1/verse.rs:19-41 | the order is lexicographic on (left bound, single before span, right bound) |
| PeterVerse.KeyInjective | rust/peter/src/translation/v1/verse.rs:19-41 | different verse numbers have different sort keys |
| PeterVerse.CmpEqual | rust/peter/src/translation/v1/verse.rs:19-41 | Equal exactly for identical verse numbers, agreeing with the derived equality |
| PeterVerse.CmpAntisymmetric | rust/peter/src/translation/v1/verse.rs:19-41 | swapping the arguments reverses the answer |
| PeterVerse.CmpTransitive | rust/peter/src/translation/v1/verse.rs:19-41 | Less is transitive |
| PeterVerse.SingleBeforeRange | rust/peter/src/translation/v1/verse.rs:23-34 | a single verse sorts before every span starting at it, and the span after it |
| KjvTypes.AllBooksInOrderListsEach | bible-verify/src/types.rs:326-343 | the list holds the 66 books once each, in declaration order, with pairwise different KJV titles |
| KjvTypes.KjvRoundTrip | bible-verify/src/types.rs:183-324 | every book's KJV title parses back to that book |
| KjvTypes.FromKjvNameSound | bible-verify/src/types.rs:183-324 | a title that parses is exactly the KJV title of the book it names |
| KjvTypes.StandardBookIff | bible-verify/src/types.rs:14-22 | a book is standard exactly when its name is the KJV title of some book |
| KjvTypes.FirstMisplaced | bible-verify/src/types.rs:58-68 | the scan stops at the first position whose title differs from the KJV title there, or runs to the end |
| KjvTypes.VerifyBookOrder | bible-verify/src/types.rs:97-109 | true exactly when there are 66 books each carrying the KJV title of its position |
| KjvTypes.ChapterCheck | bible-verify/src/types.rs:79-91 | a chapter passes exactly when neither its verse count nor any verse is suspicious; the count is checked first, then the first suspicious verse is reported |
| KjvTypes.BookCheck | bible-verify/src/types.rs:78-92 | a book passes exactly when all its chapters do, and the first failing chapter gives the error |
| KjvTypes.IsValidBookCount | bible-verify/src/types.rs:52-54 | not 66 books: the count, truncated to u32, is the error |
| KjvTypes.IsValidMisplacedPosition | bible-verify/src/types.rs:58-68 | a book-amount error at the order check names a 1-based position holding a standard title out of place |
| KjvTypes.IsValidFirstMismatch | bible-verify/src/types.rs:58-68 | at the first mismatch an unknown title gives an invalid-name error and a known title gives its 1-based position |
| KjvTypes.NameLoopPasses | bible-verify/src/types.rs:70-75 | once the order check passes, the name loop cannot fail |
| KjvTypes.IsValidOrder | bible-verify/src/types.rs:50-95 | a valid Bible is in KJV order |
| KjvTypes.IsValidIff | bible-verify/src/types.rs:50-95 | valid exactly when in KJV order and every chapter is plausible |
| KjvTypes.IsValidFirstSuspicious | bible-verify/src/types.rs:77-92 | with the order right, the error is that of the first book that fails |
| KjvVerifier.FirstMissing | bible-verify/src/verifier.rs:298-310 | nothing is reported exactly when every number of the range has a verse |
| KjvVerifier.VerifyBible | bible-verify/src/verifier.rs:265-348 | not 66 books gives the count error; otherwise the Bible passes exactly when every book does, and the error is that of the first failing book |
| KjvVerifier.RangeSet | bible-verify/src/verifier.rs:299 | the numbers 1..=n, exactly n of them |
| KjvVerifier.SeenStep | bible-verify/src/verifier.rs:312-313 | inserting a verse's number adds it to the seen set, and it was already there exactly when the number repeats an earlier verse |
| KjvVerifier.SeenSize | bible-verify/src/verifier.rs:312-313 | after k verses at most k numbers are seen, exactly k when none repeated |
| KjvVerifier.ScanVersesOk | bible-verify/src/verifier.rs:312-344 | the verse loop passes exactly when no verse is a repeat or has an implausible word count |
| KjvVerifier.ScanVersesFirst | bible-verify/src/verifier.rs:312-344 | when the verse loop fails, its error is that of the first bad verse |
| KjvVerifier.ChapterSuspicious | bible-verify/src/verifier.rs:277-296 | an implausible verse count, with Psalm 117 exempt from the lower bound, is reported with the help text for its side, and only then |
| KjvVerifier.ChapterMissing | bible-verify/src/verifier.rs:298-310 | otherwise the smallest number in 1..=n without a verse is reported as missing |
| KjvVerifier.ChapterOkIff | bible-verify/src/verifier.rs:273-345 | a chapter passes exactly when its count is plausible, all of 1..=n are present, and no verse is bad |
| KjvVerifier.ChapterOkExact | bible-verify/src/verifier.rs:298-344 | a passing chapter's verse numbers are exactly 1..=n, each once |
| KjvVerifier.RepeatReportsMissing | bible-verify/src/verifier.rs:298-322 | in a chapter with a plausible count, a repeated number always leaves some number of 1..=n missing, so the missing-verse check fires first |
| KjvVerifier.DuplicateNeverReported | bible-verify/src/verifier.rs:312-322 | the duplicate-verse error is unreachable as written |
| KjvVerifier.RepeatedVerseExample | bible-verify/src/verifier.rs:298-310 | verses numbered 1, 1, 2 are reported as verse 3 missing |
| KjvVerifier.IntendedAcceptsSame | bible-verify/src/verifier.rs:298-344 | checking duplicates before missing numbers accepts exactly the same chapters |
| KjvVerifier.DuplicateReported | bible-verify/src/verifier.rs:312-322 | with duplicates checked first, the first repeated verse is reported as a duplicate |
| KjvVerifier.VerifyBibleIntended | bible-verify/src/verifier.rs:265-348 | with the reordered chapter check, the count error and the first failing book are kept |
| KjvVerifier.IntendedBibleAcceptsSame | bible-verify/src/verifier.rs:265-348 | both versions accept the same Bibles |
| FileOps.GenerateOutputFilename | rust/sefer/src/file_ops.rs:15-22 | the result ends with "." and the extension; a path without a dot keeps all of it; otherwise everything before the last dot is kept |
| FileOps.Suffixed | rust/sefer/src/file_ops.rs:18-20 | joining base and extension with a dot keeps the base as prefix and ends with the extension |
| FileOps.GenerateIdempotent | rust/sefer/src/file_ops.rs:15-22 | deriving again with the same dot-free extension changes nothing |
| FileOps.DotDirectoryTruncates | rust/sefer/src/file_ops.rs:16-17 | "./name" without another dot loses the whole name: only "." and the extension remain |
| FileOps.FileName | rust/sefer/src/file_ops.rs:16-17 | the file-name part of a path contains no "/" |
| FileOps.GenerateOutputFilenameIntended | rust/sefer/src/file_ops.rs:15-22 | looking for the dot only in the file-name part still ends with "." and the extension |
| FileOps.IntendedKeepsDirectory | rust/sefer/src/file_ops.rs:15-22 | the directory part is kept and only the file name is derived |
| FileOps.IntendedAgreesUndotted | rust/sefer/src/file_ops.rs:19-21 | without a dot both derivations agree |
| FileOps.IntendedAgreesUndirected | rust/sefer/src/file_ops.rs:15-22 | without a directory both derivations agree |
| FileOps.DotDirectoryKept | rust/sefer/src/file_ops.rs:16-17 | "./name" becomes "./name." plus the extension |
| FileOps.DottedExample | rust/sefer/src/file_ops.rs:41-44 | "test.json" becomes "test." plus the extension |
| FileOps.UndottedExample | rust/sefer/src/file_ops.rs:45-48 | "test" becomes "test." plus the extension |
| FileOps.ReplacedExtension | rust/sefer/src/file_ops.rs:49-52 | the part after the last dot is replaced, as with "path/to/test.json" becoming "path/to/test.books.json" |

## Left out

- Browser and system I/O become parameters or values. This covers local storage, the browser database, HTTP through the CORS proxies, the clipboard, downloads, window listeners, `console` logging, and the JavaScript ZIP call of the markdown export. Each operation returns what it would write or navigate to.
- Reading and writing files in the converter and the verifier: `read_file`, `write_file`, `file_exists` and `file_size` (rust/sefer/src/file_ops.rs:5-33) are thin wrappers over the file system.
- JSON parsing and the diagnostic spans of the verifier (bible-verify/src/verifier.rs:241-263 and `find_json_span`). The model starts from the parsed `Bible`, and its errors carry no source span.
- Progress callbacks and their `f32` fractions (linked-markdown export, PDF export), PDF layout, themes and the random verse and chapter jumps (a static counter feeding a generator). All of these are floating point, static data or randomness.
- The Leptos components, signals and effects that display the state. Only the state transitions they call are modelled.
- The asynchronous loading of the comparison panel and any interleaving of its requests. The model takes the loaded translations as a list.
- Building, packaging and serving the site (Nix expressions, WASM bundling, CSS generation, the dev-server supervisor). None of it is Rust logic of the reader.
- `PeterStorage.Fetch`: the download is a parameter. `PeterStorage.FetchFromUrl` takes the outcome of the `curl` run and the UTF-8 and JSON decoders as parameters, so I/O and parse errors are inputs.
- `check.rs` `has_warnings`, `summary` and `validation_report` (rust/peter/src/translation/v1/check.rs:100-102, 117-135, 477-504) only format the statistics. The warnings are modelled as values, not as their message text.
- `VerseID`'s `Display` (rust/peter/src/translation/v1/verse.rs:55-59) is message formatting.
- `KjvTypes.IsValid`: the `ChapterAmount` and `VerseAmount` error variants are kept in the datatype, but no code path produces them.
- `KjvVerifier.VerifyBible` reuses the `Book`, `Chapter` and `Verse` records of `KjvTypes`, which have the same fields as the verifier's own (bible-verify/src/verifier.rs:96-121). The verifier's numbers are `usize` where the library's are `u32`, and both are naturals here.
- `Strings.ToLower` lower-cases only ASCII and the Latin-1 capitals, whereas Rust's `to_lowercase` covers all of Unicode. The book names and accented Dutch names the reader handles lie in that range.
- `UrlHelpers.ParseBookChapterFromUrl` takes the percent-decoder as a parameter. The lemmas that need it require only that it inverts `Percent.Encode`, which is what `urlencoding::decode` promises. Malformed escapes are left to the parameter.
- `VimKeys.ValueOf`: the loaded key mappings are a list searched first-match. The source iterates a `HashMap`, whose order is unspecified (site/src/instructions/vim_keys.rs:202, 253, 271). The model fixes one order, and the lemmas about sequences hold for any order of the list.
- `SiteStorage.Write` and the translation slots built on it (`Downloaded`, `Selected`, `CustomTranslations`, `AddDownloaded`, `RemoveDownloaded`, `AddCustom`, `RemoveCustom`, `Uninstall`) assume a window with local storage. Without one, gloo's `LocalStorage` throws and the handler stops, which a pure model cannot express. Only the recent-chapters slot checks for that case (recent_chapters.rs:17-18, 49-50, 59-60), and the model's `available` flag governs that slot alone.
- `CrossReferences.SortByVotes` sorts stably. The source's `sort_unstable_by` may order equal vote counts in any way, and the model yields one of those orders.
- `CrossReferences.HandleReferenceKey` leaves out the early return once the panel is disposed (cross_references_sidebar.rs:416-418), which is component lifecycle. It also leaves out moving focus to the selected entry, which is a DOM effect.
- `CrossReferences.AbsI32` wraps `i32::MIN` to itself, as a release build does. A debug build panics there instead.
- `SiteStorage.BibleTranslation` keeps `release_year` as a natural number rather than a `u16`. The import form refuses years that do not parse as `u16` (`SiteStorage.ValidateImport`), and no stored value is produced elsewhere.
- The translation tables of `Translation::from_language` and the Bible text are parameters rather than literal data. The cross-reference table, generated at build time, is a lookup parameter too.
- The `Reference` record of site/src/core/types.rs is not part of this model. Its fields (book, chapter, verse span, votes) are taken from their uses in the sidebar.
- The instruction enum is the union of the variants the reader's files use, and `GoToVerse` carries a natural number. The `BibleTranslation` fields follow site/src/storage/translation_storage.rs.
- Copies of these modules that no crate compiles are not modelled: the older files under site/src/ and site/src/utils/, the top-level peter/ tree, parser-toolkit/, and rust/peter/src/translation/v1/books.rs.
- Counters and numbers are unbounded naturals. Where the source parses or truncates to a fixed width, the model does so explicitly: `parse::<u32>`, `parse::<u16>`, `len() as u32`, `code() as u16` and `i32` votes.

## Findings

| source | as written | input that shows it | evidently intended | confidence | as-written member | corrected member |
|---|---|---|---|---|---|---|
| site/src/utils/url_helpers.rs:30-33 | underscores become spaces only when percent-decoding fails, and a plain underscore decodes fine | path `/1_Timothy/3` gives book `1_Timothy` | book `1 Timothy`, as the module's test at lines 79-85 expects | not executed | UrlHelpers.ParseBookChapterFromUrl, UrlHelpers.UnderscorePathKeepsUnderscore | UrlHelpers.ParseBookChapterIntended, UrlHelpers.UnderscorePathFixed |
| site/src/components/cross_references_sidebar.rs:59-100 | the Dutch keys with accents are stored as mis-decoded text (`√´` for `ë`) | `I Samuël` passes through unchanged, so its references are not found | `I Samuël` canonicalises to `1 Samuel` | not executed | CrossReferences.CanonicalBookName, CrossReferences.DutchAccentedNames | CrossReferences.CanonicalBookNameIntended, CrossReferences.DutchAccentedNames |
| site/src/components/cross_references_sidebar.rs:238-242 | the thumbs-up and thumbs-down markers are the same mis-decoded text | a count of 1 is labelled with four unrelated characters and then `1` | the 👍 or 👎 emoji followed by the count, which reads back as the count | not executed | CrossReferences.FormatVotesAsWritten, CrossReferences.VotesMarkersAsWritten | CrossReferences.FormatVotes, CrossReferences.VotesRoundTrip |
| site/src/instructions/processor.rs:274-283 | book = first word and chapter = second word of the chapter name | chapter `1 Timothy 3`, verse 2 copies `1 Timothy:2` with a link to book `1`, chapter `Timothy` | `1 Timothy 3:2` with a link to `1_timothy/3` | not executed | Processor.ReferenceParts, Processor.ReferencePartsSplitsNumberedBook, Processor.TimothyReference | Processor.ReferencePartsIntended, Processor.ReferenceBlockIntended |
| site/src/components/command_palette.rs:573-583 | numerals are replaced anywhere in the text, inside words too | `maleachi 3` becomes `maleach1 3`, so the query `maleach1` matches it | only whole-word numerals are converted | not executed | CommandPalette.RomanToArabic, CommandPalette.MaleachiRewritten, CommandPalette.InsideWordWritten | CommandPalette.FuzzyScoreIntended, CommandPalette.InsideWordIntended |
| rust/sefer/src/file_ops.rs:16-17 | the last dot is searched over the whole path, directories included | `./genesis` with extension `json` gives `.json` | `./genesis.json` | not executed | FileOps.GenerateOutputFilename, FileOps.DotDirectoryTruncates | FileOps.GenerateOutputFilenameIntended, FileOps.DotDirectoryKept |
| rust/peter/src/translation/v1/check.rs:249-255 | a book counts as having errors only when one of its chapters has errors, so gap errors are not counted | a book with chapters 1 and 3, each holding verse 1, fails the check with `books_with_errors` = 0 | every book that added an error is counted | not executed | PeterCheck.GapOnlyBookNotCounted, PeterCheck.BooksWithErrorsMissesGap | PeterCheck.ValidateBooksIntended |
| bible-verify/src/verifier.rs:298-322 | missing numbers are checked before duplicates, and with n verses a repeated number always leaves one of 1..n missing | a Genesis chapter with verses 1, 1, 2 reports verse 3 missing; `DuplicateVerse` is unreachable | the repeated verse is reported as a duplicate | not executed | KjvVerifier.DuplicateNeverReported, KjvVerifier.RepeatedVerseExample | KjvVerifier.DuplicateReported, KjvVerifier.VerifyBibleIntended |
