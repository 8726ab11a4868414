/** What the reader keeps in the browser's local storage: the recently read
    chapters, the selected translation, the downloaded translations and the
    imported (custom) ones, with the operations that add, remove, clear,
    uninstall and switch. The store is a value; a slot that is missing or
    does not parse reads as `None`. */
module SiteStorage {
  import opened Wrappers
  import opened Strings
  import opened Lists
  import opened Arithmetic

  datatype Language = Dutch | English

  datatype BibleTranslation = BibleTranslation(
    name: string, shortName: string, releaseYear: nat, iagon: string, languages: seq<Language>)

  datatype RecentChapter = RecentChapter(
    bookName: string, chapter: nat, displayName: string, path: string, timestamp: nat)

  /** The slots of local storage the reader uses, and the cache keys of the
      translations saved in the browser database. `available` is false when
      there is no window or no local storage; only the recent-chapters code
      checks for that, reading an empty list and dropping its writes. The
      other slots assume local storage is there. `writable` is false when
      local storage refuses writes (a full quota, say): a refused write
      leaves the slot as it was and is reported as `WriteRefused`. */
  datatype Store = Store(
    available: bool,
    writable: bool,
    selected: Option<string>,
    downloaded: Option<seq<string>>,
    custom: Option<seq<BibleTranslation>>,
    recent: Option<seq<RecentChapter>>,
    cached: set<string>)

  datatype StorageError = WriteRefused

  /** `LocalStorage::set` of one of the translation slots: `next` is the
      store with that slot replaced. */
  function Write(store: Store, next: Store): (r: (Store, Result<(), StorageError>))
    ensures r.1.Err? <==> !store.writable
    ensures r.0 == (if store.writable then next else store)
  {
    if !store.writable then (store, Err(WriteRefused))
    else (next, Ok(()))
  }

  // ---------------------------------------------------------------------------
  // Recently read chapters

  const MaxRecentChapters: nat := 10

  /** `get_recent_chapters`: the stored list, or none when it cannot be read. */
  function RecentChapters(store: Store): seq<RecentChapter> {
    if store.available then store.recent.GetOr([]) else []
  }

  predicate IsChapter(c: RecentChapter, book: string, chapter: nat) {
    c.bookName == book && c.chapter == chapter
  }

  /** The list `add_recent_chapter` saves: the entries for other chapters, in
      their order, behind a new entry for this chapter whose timestamp is how
      many others there are, cut to the ten most recent. */
  function AddRecent(recent: seq<RecentChapter>, book: string, chapter: nat, displayName: string, path: string): (r: seq<RecentChapter>)
    ensures 1 <= |r| <= MaxRecentChapters
    ensures var others := Retain(recent, c => !IsChapter(c, book, chapter));
      && r[0] == RecentChapter(book, chapter, displayName, path, |others|)
      && |r| == Min(|others| + 1, MaxRecentChapters)
      && r[1..] == others[..|r| - 1]
    ensures forall i :: 1 <= i < |r| ==> !IsChapter(r[i], book, chapter)
  {
    var others := Retain(recent, c => !IsChapter(c, book, chapter));
    var entry := RecentChapter(book, chapter, displayName, path, |others|);
    var all := [entry] + others;
    var r := if |all| > MaxRecentChapters then all[..MaxRecentChapters] else all;
    assert r[1..] == others[..|r| - 1];
    r
  }

  /** No two entries of the list are for the same chapter. */
  predicate UniqueChapters(recent: seq<RecentChapter>) {
    forall i, j :: 0 <= i < j < |recent| ==> !IsChapter(recent[j], recent[i].bookName, recent[i].chapter)
  }

  /** Adding keeps the list free of duplicates. */
  lemma AddRecentUnique(recent: seq<RecentChapter>, book: string, chapter: nat, displayName: string, path: string)
    requires UniqueChapters(recent)
    ensures UniqueChapters(AddRecent(recent, book, chapter, displayName, path))
  {
    var others := Retain(recent, c => !IsChapter(c, book, chapter));
    var r := AddRecent(recent, book, chapter, displayName, path);
    RetainUnique(recent, c => !IsChapter(c, book, chapter));
    forall i, j | 0 <= i < j < |r|
      ensures !IsChapter(r[j], r[i].bookName, r[i].chapter)
    {
      if i > 0 {
        assert r[i] == others[i - 1] && r[j] == others[j - 1];
      }
    }
  }

  lemma {:induction false} RetainUnique(recent: seq<RecentChapter>, keep: RecentChapter -> bool)
    requires UniqueChapters(recent)
    ensures UniqueChapters(Retain(recent, keep))
  {
    if |recent| > 0 {
      var rest := Retain(recent[1..], keep);
      RetainUnique(recent[1..], keep);
      if keep(recent[0]) {
        var r := [recent[0]] + rest;
        forall j | 0 < j < |r| ensures !IsChapter(r[j], r[0].bookName, r[0].chapter) {
          assert r[j] in recent[1..];
        }
      }
    }
  }

  /** Opening the chapter that was read last again leaves the list as it
      was, while fewer than ten other chapters are listed; with more, the
      timestamp of the entry drops to the list's new length minus one. */
  lemma AddRecentAgain(recent: seq<RecentChapter>, book: string, chapter: nat, displayName: string, path: string)
    requires |Retain(recent, c => !IsChapter(c, book, chapter))| < MaxRecentChapters
    ensures var once := AddRecent(recent, book, chapter, displayName, path);
      AddRecent(once, book, chapter, displayName, path) == once
  {
    var keep := c => !IsChapter(c, book, chapter);
    var once := AddRecent(recent, book, chapter, displayName, path);
    RetainAppend([once[0]], once[1..], keep);
    assert once == [once[0]] + once[1..];
    assert Retain([once[0]], keep) == [];
    RetainAll(once[1..], keep);
  }

  /** `add_recent_chapter` on the store; a refused write is ignored. */
  function AddRecentChapter(store: Store, book: string, chapter: nat, displayName: string, path: string): (r: Store)
    ensures !(store.available && store.writable) ==> r == store
    ensures store.available && store.writable ==>
      RecentChapters(r) == AddRecent(RecentChapters(store), book, chapter, displayName, path)
  {
    if store.available && store.writable then
      store.(recent := Some(AddRecent(RecentChapters(store), book, chapter, displayName, path)))
    else store
  }

  /** `clear_recent_chapters`: the slot is removed, so the list reads as
      empty. */
  function ClearRecentChapters(store: Store): (r: Store)
    ensures RecentChapters(r) == []
    ensures r.downloaded == store.downloaded && r.selected == store.selected && r.custom == store.custom
  {
    if store.available then store.(recent := None) else store
  }

  // ---------------------------------------------------------------------------
  // Downloaded translations and the selection

  /** `get_downloaded_translations`. */
  function Downloaded(store: Store): seq<string> {
    store.downloaded.GetOr([])
  }

  /** `is_translation_downloaded`. */
  predicate IsDownloaded(store: Store, name: string) {
    name in Downloaded(store)
  }

  /** `get_selected_translation`. */
  function Selected(store: Store): Option<string> {
    store.selected
  }

  /** `add_downloaded_translation`: appends the name unless it is listed;
      a listed name needs no write. */
  function AddDownloaded(store: Store, name: string): (r: (Store, Result<(), StorageError>))
    ensures IsDownloaded(store, name) ==> r == (store, Ok(()))
    ensures r.1.Err? <==> !store.writable && !IsDownloaded(store, name)
    ensures r.1.Err? ==> r.0 == store
    ensures r.1.Ok? ==> IsDownloaded(r.0, name)
    ensures r.1.Ok? && !IsDownloaded(store, name) ==> Downloaded(r.0) == Downloaded(store) + [name]
    ensures Selected(r.0) == Selected(store) && r.0.custom == store.custom
  {
    var list := Downloaded(store);
    if name in list then (store, Ok(()))
    else Write(store, store.(downloaded := Some(list + [name])))
  }

  /** Adding never lists a name twice. */
  lemma AddDownloadedNoDuplicates(store: Store, name: string)
    requires Distinct(Downloaded(store))
    ensures Distinct(Downloaded(AddDownloaded(store, name).0))
  {
  }

  /** `remove_downloaded_translation`: drops every occurrence of the name. */
  function RemoveDownloaded(store: Store, name: string): (r: (Store, Result<(), StorageError>))
    ensures r.1.Ok? ==> !IsDownloaded(r.0, name)
    ensures r.1.Err? <==> !store.writable
    ensures r.1.Err? ==> r.0 == store
    ensures r.1.Ok? ==> Downloaded(r.0) == Retain(Downloaded(store), n => n != name)
    ensures Selected(r.0) == Selected(store) && r.0.custom == store.custom
  {
    Write(store, store.(downloaded := Some(Retain(Downloaded(store), n => n != name))))
  }

  /** Removing a name keeps every other name, in order: after adding a name
      that was not listed, removing it gives the list back. */
  lemma RemoveAfterAdd(store: Store, name: string)
    requires store.writable && !IsDownloaded(store, name)
    ensures Downloaded(RemoveDownloaded(AddDownloaded(store, name).0, name).0) == Downloaded(store)
  {
    var keep := n => n != name;
    var list := Downloaded(store);
    RetainAppend(list, [name], keep);
    RetainAll(list, keep);
    assert Retain([name], keep) == [];
  }

  /** `get_custom_translations`. */
  function CustomTranslations(store: Store): seq<BibleTranslation> {
    store.custom.GetOr([])
  }

  /** `add_custom_translation`: replaces any entry with the same short name by
      the new one, placed last. */
  function AddCustom(store: Store, t: BibleTranslation): (r: (Store, Result<(), StorageError>))
    ensures r.1.Err? <==> !store.writable
    ensures r.1.Err? ==> r.0 == store
    ensures r.1.Ok? ==>
      var list := CustomTranslations(r.0);
      && |list| > 0 && list[|list| - 1] == t
      && (forall i :: 0 <= i < |list| - 1 ==> list[i].shortName != t.shortName)
      && list[..|list| - 1] == Retain(CustomTranslations(store), (c: BibleTranslation) => c.shortName != t.shortName)
    ensures Downloaded(r.0) == Downloaded(store) && Selected(r.0) == Selected(store)
  {
    Write(store, store.(custom := Some(Retain(CustomTranslations(store), (c: BibleTranslation) => c.shortName != t.shortName) + [t])))
  }

  /** `_remove_custom_translation`: drops every entry with that short name. */
  function RemoveCustom(store: Store, shortName: string): (r: (Store, Result<(), StorageError>))
    ensures r.1.Err? <==> !store.writable
    ensures r.1.Err? ==> r.0 == store
    ensures r.1.Ok? ==> forall i :: 0 <= i < |CustomTranslations(r.0)| ==> CustomTranslations(r.0)[i].shortName != shortName
    ensures r.1.Ok? ==>
      CustomTranslations(r.0) == Retain(CustomTranslations(store), (c: BibleTranslation) => c.shortName != shortName)
    ensures Downloaded(r.0) == Downloaded(store) && Selected(r.0) == Selected(store)
  {
    Write(store, store.(custom := Some(Retain(CustomTranslations(store), (c: BibleTranslation) => c.shortName != shortName))))
  }

  /** After an import, exactly one custom translation has the new short name. */
  lemma AddCustomOnce(store: Store, t: BibleTranslation)
    requires store.writable
    ensures var list := CustomTranslations(AddCustom(store, t).0);
      forall i :: 0 <= i < |list| ==> (list[i].shortName == t.shortName <==> i == |list| - 1)
  {
  }

  const DefaultTranslation: string := "sv"
  const CustomPrefix: string := "custom_"

  /** The key a translation's data is cached under. */
  function CacheKey(name: string): string {
    "translation_" + name
  }

  datatype UninstallError = StorageFailed(StorageError) | CacheRemovalFailed

  /** `uninstall_translation`: unlist the name, drop a custom translation's
      entry, remove the cached data (`cacheRemoved` says whether the browser
      database did), and put the selection back on the default translation
      when it was the one removed. A refused write to local storage ends the
      operation at once, as does a failed cache removal, after the lists have
      changed and before the selection is looked at. Resetting the selection
      ignores a refused write. */
  function Uninstall(store: Store, name: string, cacheRemoved: bool): (r: (Store, Result<(), UninstallError>))
    ensures !store.writable ==> r == (store, Err(StorageFailed(WriteRefused)))
    ensures store.writable ==> (r.1.Ok? <==> cacheRemoved)
    ensures r.1.Ok? ==> !IsDownloaded(r.0, name) && CacheKey(name) !in r.0.cached
    ensures r.1 == Err(CacheRemovalFailed) ==> !IsDownloaded(r.0, name) && r.0.cached == store.cached
    ensures r.1.Ok? && StartsWith(name, CustomPrefix) ==>
      forall i :: 0 <= i < |CustomTranslations(r.0)| ==> CustomTranslations(r.0)[i].shortName != name
    ensures !StartsWith(name, CustomPrefix) ==> CustomTranslations(r.0) == CustomTranslations(store)
    ensures Selected(r.0) == (if r.1.Ok? && Selected(store) == Some(name)
                              then Some(DefaultTranslation) else Selected(store))
  {
    var (s1, w1) := RemoveDownloaded(store, name);
    if w1.Err? then (s1, Err(StorageFailed(w1.error)))
    else
      var (s2, w2) := if StartsWith(name, CustomPrefix) then RemoveCustom(s1, name) else (s1, Ok(()));
      if w2.Err? then (s2, Err(StorageFailed(WriteRefused)))
      else if !cacheRemoved then (s2, Err(CacheRemovalFailed))
      else
        var s3 := s2.(cached := s2.cached - {CacheKey(name)});
        if Selected(s3) == Some(name) then (s3.(selected := Some(DefaultTranslation)), Ok(()))
        else (s3, Ok(()))
  }

  /** Uninstalling a translation just downloaded gives the list of
      downloaded translations back, and leaves a translation that is not
      custom out of the custom list's changes. */
  lemma UninstallAfterAdd(store: Store, name: string)
    requires store.writable && !IsDownloaded(store, name)
    ensures var r := Uninstall(AddDownloaded(store, name).0, name, true);
      r.1.Ok? && Downloaded(r.0) == Downloaded(store)
  {
    RemoveAfterAdd(store, name);
  }

  datatype SwitchError = NotDownloaded | LoadFailed

  /** `switch_bible_translation`: the current Bible becomes the loaded
      translation; a name that is not downloaded is refused before anything
      is loaded, and a failed load leaves the current Bible too. `load`
      stands for reading the cached data. */
  function SwitchTranslation<B>(store: Store, current: Option<B>, name: string, load: string -> Option<B>): (r: (Option<B>, Result<(), SwitchError>))
    ensures !IsDownloaded(store, name) ==> r == (current, Err(NotDownloaded))
    ensures r.1.Ok? <==> IsDownloaded(store, name) && load(name).Some?
    ensures r.1.Ok? ==> r.0 == load(name)
    ensures r.1.Err? ==> r.0 == current
  {
    if !IsDownloaded(store, name) then (current, Err(NotDownloaded))
    else match load(name)
      case None => (current, Err(LoadFailed))
      case Some(bible) => (Some(bible), Ok(()))
  }

  // ---------------------------------------------------------------------------
  // Import form

  datatype ImportError = BlankName | BlankYear | InvalidYear | NoFile

  /** The message the form shows for each failed check. */
  function ImportErrorMessage(e: ImportError): string {
    match e
    case BlankName => "Voer een naam in voor de vertaling"
    case BlankYear => "Voer een uitgavejaar in"
    case InvalidYear => "Uitgavejaar moet een geldig getal zijn"
    case NoFile => "Selecteer een JSON bestand"
  }

  predicate IsBlank(s: string) {
    Trim(s) == ""
  }

  /** The checks of the import form, in order: a name that is not blank, a
      year that is not blank, a year that parses as a 16-bit number as typed
      (surrounding spaces make it fail), and a chosen file. On success, the
      year and the file's text. */
  function ValidateImport(name: string, year: string, file: Option<string>): (r: Result<(nat, string), ImportError>)
    ensures r == Err(BlankName) <==> IsBlank(name)
    ensures r == Err(BlankYear) <==> !IsBlank(name) && IsBlank(year)
    ensures r == Err(InvalidYear) <==> !IsBlank(name) && !IsBlank(year) && ParseU16(year).None?
    ensures r == Err(NoFile) <==> !IsBlank(name) && !IsBlank(year) && ParseU16(year).Some? && file.None?
    ensures r.Ok? ==> r.value == (ParseU16(year).value, file.value)
  {
    if IsBlank(name) then Err(BlankName)
    else if IsBlank(year) then Err(BlankYear)
    else match ParseU16(year)
      case None => Err(InvalidYear)
      case Some(y) =>
        match file
        case None => Err(NoFile)
        case Some(text) => Ok((y, text))
  }

  /** The form's checks as an ordered list of (fails, error) pairs. */
  function ImportChecks(name: string, year: string, file: Option<string>): seq<(bool, ImportError)> {
    [(IsBlank(name), BlankName), (IsBlank(year), BlankYear), (ParseU16(year).None?, InvalidYear), (file.None?, NoFile)]
  }

  /** The error of the first failing check of a list. */
  function FirstFailure(checks: seq<(bool, ImportError)>): (r: Option<ImportError>)
    ensures r.None? <==> forall i :: 0 <= i < |checks| ==> !checks[i].0
    ensures r.Some? ==>
      exists i :: 0 <= i < |checks| && checks[i] == (true, r.value) && forall j :: 0 <= j < i ==> !checks[j].0
  {
    if |checks| == 0 then None
    else if checks[0].0 then Some(checks[0].1)
    else
      var r := FirstFailure(checks[1..]);
      assert forall i :: 1 <= i < |checks| ==> checks[i] == checks[1..][i - 1];
      r
  }

  /** Running down four checks. */
  lemma FirstFailureOfFour(a: bool, b: bool, c: bool, d: bool)
    ensures FirstFailure([(a, BlankName), (b, BlankYear), (c, InvalidYear), (d, NoFile)]) ==
      if a then Some(BlankName) else if b then Some(BlankYear)
      else if c then Some(InvalidYear) else if d then Some(NoFile) else None
  {
    var last: seq<(bool, ImportError)> := [(d, NoFile)];
    assert last[1..] == [];
    assert FirstFailure(last) == if d then Some(NoFile) else None;
    var third := [(c, InvalidYear)] + last;
    assert third[1..] == last;
    assert FirstFailure(third) == if c then Some(InvalidYear) else FirstFailure(last);
    var second := [(b, BlankYear)] + third;
    assert second[1..] == third;
    assert FirstFailure(second) == if b then Some(BlankYear) else FirstFailure(third);
    var checks := [(a, BlankName)] + second;
    assert checks[1..] == second;
    assert FirstFailure(checks) == if a then Some(BlankName) else FirstFailure(second);
    assert checks == [(a, BlankName), (b, BlankYear), (c, InvalidYear), (d, NoFile)];
  }

  /** The form reports the first failing check in the order name, year,
      year's value, file, and succeeds only when none fails. */
  lemma ValidateImportFirstFailure(name: string, year: string, file: Option<string>)
    ensures var r := ValidateImport(name, year, file);
      && (r.Ok? <==> FirstFailure(ImportChecks(name, year, file)).None?)
      && (r.Err? ==> FirstFailure(ImportChecks(name, year, file)) == Some(r.error))
  {
    FirstFailureOfFour(IsBlank(name), IsBlank(year), ParseU16(year).None?, file.None?);
    assert ImportChecks(name, year, file) ==
      [(IsBlank(name), BlankName), (IsBlank(year), BlankYear), (ParseU16(year).None?, InvalidYear), (file.None?, NoFile)];
    var r := ValidateImport(name, year, file);
    if !IsBlank(name) && !IsBlank(year) && ParseU16(year).Some? {
      assert r == if file.None? then Err(NoFile) else Ok((ParseU16(year).value, file.value));
    }
  }
}
