/** The linked Markdown export: one index file for the translation, one file
    per book listing its chapters, and one file per chapter holding its verses
    with `previous:`/`next:` wiki links to the neighbouring chapters, crossing
    book boundaries. Files are collected in a map by name, later files
    replacing earlier ones of the same name. */
module LinkedMarkdown {
  import opened Wrappers
  import opened Strings
  import opened Lists
  import opened BibleCore
  import opened SiteStorage
  import TranslationMap

  // ---------------------------------------------------------------------------
  // Names

  /** The translation described when none is current. */
  const UnknownTranslation := BibleTranslation("Unknown Bible", "unknown", 2024, "", [])

  function TranslationInfo(current: Option<BibleTranslation>): (r: BibleTranslation)
    ensures current.Some? ==> r == current.value
    ensures current.None? ==> r.name == "Unknown Bible" && r.shortName == "unknown"
  {
    current.GetOr(UnknownTranslation)
  }

  /** A book's name in the current translation's first language, looked up
      lower-cased; the name itself when there is no current translation, it
      lists no language, or the table does not know the name. */
  function TranslatedName(current: Option<BibleTranslation>, tables: Language -> TranslationMap.Translation,
                          name: string): (r: string)
    ensures current.None? || current.value.languages == [] ==> r == name
  {
    match current
    case Some(t) =>
      if |t.languages| > 0 then
        TranslationMap.Get(tables(t.languages[0]), ToLower(name)).GetOr(name)
      else name
    case None => name
  }

  /** Lower-cased with every space replaced by `_`: the export's folder name
      and the stem of every book's file names. */
  function Slug(name: string): (r: string)
    ensures |r| == |name| && ' ' !in r
    ensures forall i :: 0 <= i < |r| ==> r[i] == (if LowerChar(name[i]) == ' ' then '_' else LowerChar(name[i]))
  {
    ReplaceChar(ToLower(name), ' ', '_')
  }

  /** What an export is made from: the Bible, the translation it is named
      after, and the book-name translation in use. */
  datatype Setting = Setting(bible: Bible, info: BibleTranslation, translate: string -> string)

  function Books(s: Setting): seq<Book> {
    s.bible.books
  }

  predicate IsChapter(s: Setting, b: nat, c: nat) {
    b < |Books(s)| && c < |Books(s)[b].chapters|
  }

  function BookName(s: Setting, b: nat): string
    requires b < |Books(s)|
  {
    s.translate(Books(s)[b].name)
  }

  /** The link target of a book's file: `<slug> <short name>`. */
  function BookTarget(s: Setting, b: nat): string
    requires b < |Books(s)|
  {
    Slug(BookName(s, b)) + " " + s.info.shortName
  }

  /** The link target of a chapter's file: `<slug> <chapter number> <short name>`. */
  function ChapterTarget(s: Setting, b: nat, c: nat): string
    requires IsChapter(s, b, c)
  {
    Slug(BookName(s, b)) + " " + NatToString(Books(s)[b].chapters[c].chapter) + " " + s.info.shortName
  }

  function FileName(target: string): string {
    target + ".md"
  }

  // ---------------------------------------------------------------------------
  // Neighbouring chapters

  /** The chapter the `previous:` link points at: the one before in the same
      book, else the last chapter of the book before, when that book has
      chapters. */
  function PreviousPosition(s: Setting, b: nat, c: nat): (r: Option<(nat, nat)>)
    requires IsChapter(s, b, c)
    ensures r.Some? ==> IsChapter(s, r.value.0, r.value.1)
    ensures r.None? <==> (c == 0 && (b == 0 || |Books(s)[b - 1].chapters| == 0))
  {
    if c > 0 then Some((b, c - 1))
    else if b > 0 && |Books(s)[b - 1].chapters| > 0 then Some((b - 1, |Books(s)[b - 1].chapters| - 1))
    else None
  }

  /** The chapter the `next:` link points at: the one after in the same book,
      else the first chapter of the book after, when that book has chapters. */
  function NextPosition(s: Setting, b: nat, c: nat): (r: Option<(nat, nat)>)
    requires IsChapter(s, b, c)
    ensures r.Some? ==> IsChapter(s, r.value.0, r.value.1)
    ensures r.None? <==> (c == |Books(s)[b].chapters| - 1
                          && (b == |Books(s)| - 1 || |Books(s)[b + 1].chapters| == 0))
  {
    if c < |Books(s)[b].chapters| - 1 then Some((b, c + 1))
    else if b + 1 < |Books(s)| && |Books(s)[b + 1].chapters| > 0 then Some((b + 1, 0))
    else None
  }

  /** The links are each other's inverse: the chapter after a chapter links
      back to it as its previous one, and the other way round. */
  lemma NeighboursInverse(s: Setting, b: nat, c: nat)
    requires IsChapter(s, b, c)
    ensures NextPosition(s, b, c).Some? ==>
      PreviousPosition(s, NextPosition(s, b, c).value.0, NextPosition(s, b, c).value.1) == Some((b, c))
    ensures PreviousPosition(s, b, c).Some? ==>
      NextPosition(s, PreviousPosition(s, b, c).value.0, PreviousPosition(s, b, c).value.1) == Some((b, c))
  {
  }

  /** Only the very first chapter has no `previous:` link and only the very
      last has no `next:` link, when no book is empty. */
  lemma EndsOfTheBible(s: Setting, b: nat, c: nat)
    requires IsChapter(s, b, c)
    requires forall k :: 0 <= k < |Books(s)| ==> |Books(s)[k].chapters| > 0
    ensures PreviousPosition(s, b, c).None? <==> b == 0 && c == 0
    ensures NextPosition(s, b, c).None? <==> b == |Books(s)| - 1 && c == |Books(s)[b].chapters| - 1
  {
  }

  // ---------------------------------------------------------------------------
  // File contents

  function WikiLink(target: string): string {
    "[[" + target + "]]"
  }

  /** The index: title, the year twice, then one link line per book. */
  function IndexContent(s: Setting): string {
    IndexTitle(s) + IndexMetadata(s) + BookLinks(s, 0)
  }

  function IndexTitle(s: Setting): string {
    "# " + s.info.name + "\n\n"
  }

  function IndexMetadata(s: Setting): string {
    "**Published:** " + NatToString(s.info.releaseYear) + "\n"
      + "**Release Year:** " + NatToString(s.info.releaseYear) + "\n"
      + "\n## Book Index\n\n"
  }

  function BookLinks(s: Setting, from: nat): string
    requires from <= |Books(s)|
    decreases |Books(s)| - from
  {
    if from == |Books(s)| then ""
    else "- " + WikiLink(BookTarget(s, from)) + "\n" + BookLinks(s, from + 1)
  }

  /** A book's file: its translated name, then one link line per chapter. */
  function BookContent(s: Setting, b: nat): string
    requires b < |Books(s)|
  {
    "# " + BookName(s, b) + "\n\n" + "## Chapter Index\n\n" + ChapterLinks(s, b, 0)
  }

  function ChapterLinks(s: Setting, b: nat, from: nat): string
    requires b < |Books(s)| && from <= |Books(s)[b].chapters|
    decreases |Books(s)[b].chapters| - from
  {
    if from == |Books(s)[b].chapters| then ""
    else "- " + WikiLink(ChapterTarget(s, b, from)) + "\n" + ChapterLinks(s, b, from + 1)
  }

  function LinkLine(key: string, s: Setting, pos: Option<(nat, nat)>): string
    requires pos.Some? ==> IsChapter(s, pos.value.0, pos.value.1)
  {
    match pos
    case Some((b, c)) => key + ": " + WikiLink(ChapterTarget(s, b, c)) + "\n"
    case None => ""
  }

  function VerseLines(verses: seq<Verse>): string {
    if |verses| == 0 then ""
    else NatToString(verses[0].verse) + " " + verses[0].text + "\n" + VerseLines(verses[1..])
  }

  /** A chapter's file: the title, the neighbour links, a blank line, then one
      `<number> <text>` line per verse. */
  function ChapterContent(s: Setting, b: nat, c: nat): string
    requires IsChapter(s, b, c)
  {
    ChapterHead(s, b, c) + VerseLines(Books(s)[b].chapters[c].verses)
  }

  function ChapterHead(s: Setting, b: nat, c: nat): string
    requires IsChapter(s, b, c)
  {
    ChapterTitle(s, b, c) + NeighbourLinks(s, b, c)
  }

  function ChapterTitle(s: Setting, b: nat, c: nat): string
    requires IsChapter(s, b, c)
  {
    "# " + BookName(s, b) + " " + NatToString(Books(s)[b].chapters[c].chapter) + "\n\n"
  }

  function NeighbourLinks(s: Setting, b: nat, c: nat): string
    requires IsChapter(s, b, c)
  {
    LinkLine("previous", s, PreviousPosition(s, b, c)) + LinkLine("next", s, NextPosition(s, b, c)) + "\n"
  }

  // ---------------------------------------------------------------------------
  // The export

  datatype File = File(name: string, content: string)

  /** Which file of the export an entry is. */
  datatype FileKind = IndexKind | BookKind(book: nat) | ChapterKind(book: nat, chapter: nat)

  predicate ValidKind(s: Setting, k: FileKind) {
    match k
    case IndexKind => true
    case BookKind(b) => b < |Books(s)|
    case ChapterKind(b, c) => IsChapter(s, b, c)
  }

  function FileOf(s: Setting, k: FileKind): File
    requires ValidKind(s, k)
  {
    match k
    case IndexKind => File(FileName(Slug(s.info.name)), IndexContent(s))
    case BookKind(b) => File(FileName(BookTarget(s, b)), BookContent(s, b))
    case ChapterKind(b, c) => File(FileName(ChapterTarget(s, b, c)), ChapterContent(s, b, c))
  }

  /** The files in the order the exporter writes them: the index, then each
      book's file followed by its chapters' files. */
  function Kinds(s: Setting): (r: seq<FileKind>)
    ensures forall i :: 0 <= i < |r| ==> ValidKind(s, r[i])
  {
    [IndexKind] + BooksKinds(s, 0)
  }

  function BooksKinds(s: Setting, from: nat): (r: seq<FileKind>)
    requires from <= |Books(s)|
    ensures forall i :: 0 <= i < |r| ==> ValidKind(s, r[i])
    decreases |Books(s)| - from
  {
    if from == |Books(s)| then []
    else [BookKind(from)] + ChapterKinds(s, from, 0) + BooksKinds(s, from + 1)
  }

  function ChapterKinds(s: Setting, b: nat, from: nat): (r: seq<FileKind>)
    requires b < |Books(s)| && from <= |Books(s)[b].chapters|
    ensures forall i :: 0 <= i < |r| ==> ValidKind(s, r[i])
    decreases |Books(s)[b].chapters| - from
  {
    if from == |Books(s)[b].chapters| then []
    else [ChapterKind(b, from)] + ChapterKinds(s, b, from + 1)
  }

  function Entries(s: Setting): (r: seq<File>)
    ensures |r| == |Kinds(s)| && forall i :: 0 <= i < |r| ==> r[i] == FileOf(s, Kinds(s)[i])
  {
    var ks := Kinds(s);
    seq(|ks|, i requires 0 <= i < |ks| => FileOf(s, ks[i]))
  }

  /** Inserting the files one after the other into a map by name. */
  function Insert(entries: seq<File>): (r: map<string, string>)
    ensures forall e :: e in entries ==> e.name in r
    ensures |r| <= |entries|
    decreases |entries|
  {
    if |entries| == 0 then map[]
    else
      var last := entries[|entries| - 1];
      var front := entries[..|entries| - 1];
      assert forall e :: e in entries ==> e in front || e == last;
      Insert(front)[last.name := last.content]
  }

  /** Every key of the map is the name of some entry. */
  lemma {:induction false} InsertKeys(entries: seq<File>, k: string)
    requires k in Insert(entries)
    ensures exists i :: 0 <= i < |entries| && entries[i].name == k
    decreases |entries|
  {
    var n := |entries| - 1;
    var front := entries[..n];
    if k != entries[n].name {
      InsertKeys(front, k);
      var i :| 0 <= i < |front| && front[i].name == k;
      assert entries[i] == front[i];
    }
  }

  function Names(entries: seq<File>): (r: seq<string>)
    ensures |r| == |entries| && forall i :: 0 <= i < |entries| ==> r[i] == entries[i].name
  {
    seq(|entries|, i requires 0 <= i < |entries| => entries[i].name)
  }

  /** With distinct names nothing is replaced: every file is kept with its
      own content. */
  lemma {:induction false} InsertDistinct(entries: seq<File>)
    requires Distinct(Names(entries))
    ensures |Insert(entries)| == |entries|
    ensures forall i :: 0 <= i < |entries| ==> Insert(entries)[entries[i].name] == entries[i].content
  {
    InsertSize(entries);
    forall i | 0 <= i < |entries| ensures Insert(entries)[entries[i].name] == entries[i].content {
      InsertContent(entries, i);
    }
  }

  /** Distinct names are distinct keys. */
  lemma {:induction false} InsertSize(entries: seq<File>)
    requires Distinct(Names(entries))
    ensures |Insert(entries)| == |entries|
    decreases |entries|
  {
    if |entries| > 0 {
      var n := |entries| - 1;
      var front := entries[..n];
      assert Names(front) == Names(entries)[..n];
      InsertSize(front);
      var m := Insert(front);
      forall j | 0 <= j < n ensures front[j].name != entries[n].name {
        assert Names(entries)[j] != Names(entries)[n];
      }
      assert entries[n].name !in m by {
        if entries[n].name in m {
          InsertKeys(front, entries[n].name);
        }
      }
      assert Insert(entries) == m[entries[n].name := entries[n].content];
    }
  }

  /** Each entry's content is what its name maps to. */
  lemma {:induction false} InsertContent(entries: seq<File>, i: nat)
    requires Distinct(Names(entries)) && i < |entries|
    ensures entries[i].name in Insert(entries)
    ensures Insert(entries)[entries[i].name] == entries[i].content
    decreases |entries|
  {
    var n := |entries| - 1;
    var front := entries[..n];
    assert Insert(entries) == Insert(front)[entries[n].name := entries[n].content];
    if i < n {
      assert Names(front) == Names(entries)[..n];
      assert front[i] == entries[i];
      InsertContent(front, i);
      assert Names(entries)[i] != Names(entries)[n];
    }
  }

  datatype LinkedMarkdownExport = LinkedMarkdownExport(files: map<string, string>, folderName: string)

  /** `export_bible_to_linked_markdown`. */
  function Export(bible: Bible, current: Option<BibleTranslation>,
                  tables: Language -> TranslationMap.Translation): (r: LinkedMarkdownExport)
    ensures ' ' !in r.folderName
    ensures FileName(r.folderName) in r.files
  {
    var s := Setting(bible, TranslationInfo(current), name => TranslatedName(current, tables, name));
    assert Kinds(s)[0] == IndexKind;
    assert Entries(s)[0] in Entries(s);
    LinkedMarkdownExport(Insert(Entries(s)), Slug(TranslationInfo(current).name))
  }

  // ---------------------------------------------------------------------------
  // Properties of the export

  function ChapterTotal(books: seq<Book>): nat {
    if |books| == 0 then 0 else |books[0].chapters| + ChapterTotal(books[1..])
  }

  lemma {:induction false} ChapterKindsLength(s: Setting, b: nat, from: nat)
    requires b < |Books(s)| && from <= |Books(s)[b].chapters|
    ensures |ChapterKinds(s, b, from)| == |Books(s)[b].chapters| - from
    decreases |Books(s)[b].chapters| - from
  {
    if from < |Books(s)[b].chapters| {
      ChapterKindsLength(s, b, from + 1);
    }
  }

  lemma {:induction false} BooksKindsLength(s: Setting, from: nat)
    requires from <= |Books(s)|
    ensures |BooksKinds(s, from)| == |Books(s)| - from + ChapterTotal(Books(s)[from..])
    decreases |Books(s)| - from
  {
    if from < |Books(s)| {
      ChapterKindsLength(s, from, 0);
      BooksKindsLength(s, from + 1);
      assert Books(s)[from..][1..] == Books(s)[from + 1..];
    }
  }

  /** The export holds at most one index, one file per book and one per
      chapter, and exactly that many when the generated names are distinct. */
  lemma FileCount(s: Setting)
    ensures |Insert(Entries(s))| <= 1 + |Books(s)| + ChapterTotal(Books(s))
    ensures Distinct(Names(Entries(s))) ==> |Insert(Entries(s))| == 1 + |Books(s)| + ChapterTotal(Books(s))
  {
    BooksKindsLength(s, 0);
    assert Books(s)[0..] == Books(s);
    if Distinct(Names(Entries(s))) {
      InsertDistinct(Entries(s));
    }
  }

  lemma {:induction false} ChapterKindListed(s: Setting, b: nat, from: nat, c: nat)
    requires IsChapter(s, b, c) && from <= c
    ensures ChapterKind(b, c) in ChapterKinds(s, b, from)
    decreases c - from
  {
    if from < c {
      ChapterKindListed(s, b, from + 1, c);
    }
  }

  /** Every book and every chapter has its file among the kinds written. */
  lemma {:induction false} KindsListed(s: Setting, from: nat, b: nat)
    requires from <= b < |Books(s)|
    ensures BookKind(b) in BooksKinds(s, from)
    ensures forall c :: 0 <= c < |Books(s)[b].chapters| ==> ChapterKind(b, c) in BooksKinds(s, from)
    decreases b - from
  {
    if from < b {
      KindsListed(s, from + 1, b);
    } else {
      forall c | 0 <= c < |Books(s)[b].chapters| ensures ChapterKind(b, c) in BooksKinds(s, from) {
        ChapterKindListed(s, b, 0, c);
      }
    }
  }

  /** A file that is written is in the export under its name. */
  lemma Written(s: Setting, k: FileKind)
    requires k in Kinds(s)
    ensures ValidKind(s, k) && FileOf(s, k).name in Insert(Entries(s))
  {
    var i :| 0 <= i < |Kinds(s)| && Kinds(s)[i] == k;
    assert Entries(s)[i] in Entries(s);
  }

  lemma ChapterWritten(s: Setting, b: nat, c: nat)
    requires IsChapter(s, b, c)
    ensures FileName(ChapterTarget(s, b, c)) in Insert(Entries(s))
  {
    KindsListed(s, 0, b);
    Written(s, ChapterKind(b, c));
  }

  /** Every book's file and every chapter's file is in the export, so every
      link of the index, of a book's chapter list and of a chapter's
      `previous:`/`next:` lines names a file of the export. */
  lemma LinksResolve(s: Setting, b: nat, c: nat)
    requires IsChapter(s, b, c)
    ensures FileName(BookTarget(s, b)) in Insert(Entries(s))
    ensures FileName(ChapterTarget(s, b, c)) in Insert(Entries(s))
    ensures PreviousPosition(s, b, c).Some? ==>
      FileName(ChapterTarget(s, PreviousPosition(s, b, c).value.0, PreviousPosition(s, b, c).value.1)) in Insert(Entries(s))
    ensures NextPosition(s, b, c).Some? ==>
      FileName(ChapterTarget(s, NextPosition(s, b, c).value.0, NextPosition(s, b, c).value.1)) in Insert(Entries(s))
  {
    KindsListed(s, 0, b);
    Written(s, BookKind(b));
    ChapterWritten(s, b, c);
    var previous := PreviousPosition(s, b, c);
    if previous.Some? {
      ChapterWritten(s, previous.value.0, previous.value.1);
    }
    var next := NextPosition(s, b, c);
    if next.Some? {
      ChapterWritten(s, next.value.0, next.value.1);
    }
  }

  /** The export is named after the translation: the folder is its slug and
      the index file is `<folder>.md`, holding the translation's title and one
      link line per book, in book order. */
  lemma IndexFile(bible: Bible, current: Option<BibleTranslation>, tables: Language -> TranslationMap.Translation)
    ensures var s := Setting(bible, TranslationInfo(current), name => TranslatedName(current, tables, name));
      Entries(s)[0] == File(FileName(Export(bible, current, tables).folderName), IndexContent(s))
      && StartsWith(IndexContent(s), "# " + TranslationInfo(current).name + "\n\n")
      && EndsWith(IndexContent(s), BookLinks(s, 0))
  {
    var s := Setting(bible, TranslationInfo(current), name => TranslatedName(current, tables, name));
    StartsWithAppend(IndexTitle(s), IndexMetadata(s) + BookLinks(s, 0));
    assert IndexContent(s) == IndexTitle(s) + (IndexMetadata(s) + BookLinks(s, 0));
    EndsWithAppend(IndexTitle(s) + IndexMetadata(s), BookLinks(s, 0));
  }

  /** A chapter's file opens with the translated book name and the chapter
      number as its title and ends with the chapter's verses. */
  lemma ChapterFileShape(s: Setting, b: nat, c: nat)
    requires IsChapter(s, b, c)
    ensures StartsWith(ChapterContent(s, b, c),
                       "# " + BookName(s, b) + " " + NatToString(Books(s)[b].chapters[c].chapter) + "\n\n")
    ensures EndsWith(ChapterContent(s, b, c), VerseLines(Books(s)[b].chapters[c].verses))
  {
    var title := ChapterTitle(s, b, c);
    var links := NeighbourLinks(s, b, c);
    var verses := VerseLines(Books(s)[b].chapters[c].verses);
    assert ChapterContent(s, b, c) == title + (links + verses);
    StartsWithAppend(title, links + verses);
    EndsWithAppend(title + links, verses);
  }
}
