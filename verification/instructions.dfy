/** The reader's instruction vocabulary and the outcome of applying one
    (site/src/instructions/types.rs, site/src/view_state.rs). The instruction
    type is the union of every variant the key maps, the palette, the view
    state and the processor use. */
module Instructions {

  datatype Instruction =
    // Navigation
    | NextVerse | PreviousVerse | NextChapter | PreviousChapter | NextBook | PreviousBook
    | NextInList | PreviousInList
    // Chapter and verse jumps
    | BeginningOfChapter | EndOfChapter | GoToVerse(verse: nat) | GoToChapter(path: string)
    | SwitchToPreviousChapter
    // Selection
    | ExtendSelectionNextVerse | ExtendSelectionPreviousVerse
    // Copying and exporting
    | CopyRawVerse | CopyVerseWithReference | ExportToPDF | ExportToMarkdown | ExportLinkedMarkdown
    // Panels
    | ToggleSidebar | ToggleCrossReferences | ToggleThemeSidebar | ToggleTranslationComparison
    | ToggleVerseVisibility | ToggleCommandPallate | ToggleBiblePallate | ToggleVersePallate
    | OpenCommandPalette | CloseCommandPalette | CloseLeftSidebar | CloseRightSidebar
    | CloseThemeSidebar | CloseTranslationComparison
    // Palette and reference lists
    | NextPaletteResult | PreviousPaletteResult | NextReference | PreviousReference
    // Book selection
    | SelectBook(name: string) | ClearSelectedBook
    // Pages and chance
    | OpenGithubRepository | OpenAboutPage | ShowTranslations | RandomVerse | RandomChapter
    // Key-input bookkeeping
    | PendingG | NoOp

  /** What applying an instruction to the view state produced. */
  datatype InstructionResult = Handled | Navigate(path: string) | NotHandled | Failed(message: string)

  /** The verse and chapter movements that take a count multiplier. */
  predicate IsCountedMove(i: Instruction) {
    i.NextVerse? || i.PreviousVerse? || i.NextChapter? || i.PreviousChapter? || i.NextBook? || i.PreviousBook?
  }
}
