/** The book names of the translation format library: the 78 books of the
    Protestant and deuterocanonical canons in canonical order, and the
    parser from text. */
module BookNames {
  import opened Wrappers
  import opened Strings

  /** A book, as its position in the enum's declaration order. The derived
      `Ord` compares exactly these positions, so `<` on `BookName` is the
      source's ordering; each variant is a constant below. */
  newtype BookName = n: int | 0 <= n < 78

  const Genesis: BookName := 0
  const Exodus: BookName := 1
  const Leviticus: BookName := 2
  const Numbers: BookName := 3
  const Deuteronomy: BookName := 4
  const Joshua: BookName := 5
  const Judges: BookName := 6
  const Ruth: BookName := 7
  const FirstSamuel: BookName := 8
  const SecondSamuel: BookName := 9
  const FirstKings: BookName := 10
  const SecondKings: BookName := 11
  const FirstChronicles: BookName := 12
  const SecondChronicles: BookName := 13
  const Ezra: BookName := 14
  const Nehemiah: BookName := 15
  const Tobit: BookName := 16
  const Judith: BookName := 17
  const Esther: BookName := 18
  const AdditionsToEsther: BookName := 19
  const FirstMaccabees: BookName := 20
  const SecondMaccabees: BookName := 21
  const Job: BookName := 22
  const Psalms: BookName := 23
  const Proverbs: BookName := 24
  const Ecclesiastes: BookName := 25
  const SongOfSongs: BookName := 26
  const Wisdom: BookName := 27
  const Sirach: BookName := 28
  const Isaiah: BookName := 29
  const Jeremiah: BookName := 30
  const Lamentations: BookName := 31
  const Baruch: BookName := 32
  const LetterOfJeremiah: BookName := 33
  const Ezekiel: BookName := 34
  const Daniel: BookName := 35
  const PrayerOfAzariah: BookName := 36
  const Susanna: BookName := 37
  const BelAndTheDragon: BookName := 38
  const Hosea: BookName := 39
  const Joel: BookName := 40
  const Amos: BookName := 41
  const Obadiah: BookName := 42
  const Jonah: BookName := 43
  const Micah: BookName := 44
  const Nahum: BookName := 45
  const Habakkuk: BookName := 46
  const Zephaniah: BookName := 47
  const Haggai: BookName := 48
  const Zechariah: BookName := 49
  const Malachi: BookName := 50
  const Matthew: BookName := 51
  const Mark: BookName := 52
  const Luke: BookName := 53
  const John: BookName := 54
  const Acts: BookName := 55
  const Romans: BookName := 56
  const FirstCorinthians: BookName := 57
  const SecondCorinthians: BookName := 58
  const Galatians: BookName := 59
  const Ephesians: BookName := 60
  const Philippians: BookName := 61
  const Colossians: BookName := 62
  const FirstThessalonians: BookName := 63
  const SecondThessalonians: BookName := 64
  const FirstTimothy: BookName := 65
  const SecondTimothy: BookName := 66
  const Titus: BookName := 67
  const Philemon: BookName := 68
  const Hebrews: BookName := 69
  const James: BookName := 70
  const FirstPeter: BookName := 71
  const SecondPeter: BookName := 72
  const FirstJohn: BookName := 73
  const SecondJohn: BookName := 74
  const ThirdJohn: BookName := 75
  const Jude: BookName := 76
  const Revelation: BookName := 77

  datatype BookNameParseError = UnknownName(name: string)

  /** `TryFrom<&str> for BookName`: the input is trimmed, then matched
      exactly, case-sensitively, against the accepted spellings; anything
      else is reported back, trimmed. */
  function Parse(value: string): (r: Result<BookName, BookNameParseError>)
    ensures r.Err? ==> r.error == UnknownName(Trim(value))
  {
    match Lookup(Trim(value))
    case Some(b) => Ok(b)
    case None => Err(UnknownName(Trim(value)))
  }

  /** The match arms of the source: each book's variant name and, for the
      numbered books, the digit form and the roman form with a space
      (`1Samuel`, `I Samuel`, `FirstSamuel`). The spellings are distinct
      literals, so grouping them by their first character, as here, keeps
      the mapping. */
  function Lookup(name: string): Option<BookName> {
    if |name| == 0 then None
    else match name[0]
    case 'G' =>
      (match name
      case "Genesis" => Some(Genesis)
      case "Galatians" => Some(Galatians)
      case _ => None)
    case 'E' =>
      (match name
      case "Exodus" => Some(Exodus)
      case "Ezra" => Some(Ezra)
      case "Esther" => Some(Esther)
      case "Ecclesiastes" => Some(Ecclesiastes)
      case "Ezekiel" => Some(Ezekiel)
      case "Ephesians" => Some(Ephesians)
      case _ => None)
    case 'L' =>
      (match name
      case "Leviticus" => Some(Leviticus)
      case "Lamentations" => Some(Lamentations)
      case "LetterOfJeremiah" => Some(LetterOfJeremiah)
      case "Luke" => Some(Luke)
      case _ => None)
    case 'N' =>
      (match name
      case "Numbers" => Some(Numbers)
      case "Nehemiah" => Some(Nehemiah)
      case "Nahum" => Some(Nahum)
      case _ => None)
    case 'D' =>
      (match name
      case "Deuteronomy" => Some(Deuteronomy)
      case "Daniel" => Some(Daniel)
      case _ => None)
    case 'J' =>
      (match name
      case "Joshua" => Some(Joshua)
      case "Judges" => Some(Judges)
      case "Judith" => Some(Judith)
      case "Job" => Some(Job)
      case "Jeremiah" => Some(Jeremiah)
      case "Joel" => Some(Joel)
      case "Jonah" => Some(Jonah)
      case "John" => Some(John)
      case "James" => Some(James)
      case "Jude" => Some(Jude)
      case _ => None)
    case 'R' =>
      (match name
      case "Ruth" => Some(Ruth)
      case "Romans" => Some(Romans)
      case "Revelation" => Some(Revelation)
      case _ => None)
    case '1' =>
      (match name
      case "1Samuel" => Some(FirstSamuel)
      case "1Kings" => Some(FirstKings)
      case "1Chronicles" => Some(FirstChronicles)
      case "1Maccabees" => Some(FirstMaccabees)
      case "1Corinthians" => Some(FirstCorinthians)
      case "1Thessalonians" => Some(FirstThessalonians)
      case "1Timothy" => Some(FirstTimothy)
      case "1Peter" => Some(FirstPeter)
      case "1John" => Some(FirstJohn)
      case _ => None)
    case 'I' =>
      (if |name| <= 1 then None
      else match name[1]
      case ' ' =>
        (match name
        case "I Samuel" => Some(FirstSamuel)
        case "I Kings" => Some(FirstKings)
        case "I Chronicles" => Some(FirstChronicles)
        case "I Maccabees" => Some(FirstMaccabees)
        case "I Corinthians" => Some(FirstCorinthians)
        case "I Thessalonians" => Some(FirstThessalonians)
        case "I Timothy" => Some(FirstTimothy)
        case "I Peter" => Some(FirstPeter)
        case "I John" => Some(FirstJohn)
        case _ => None)
      case 'I' =>
        (match name
        case "II Samuel" => Some(SecondSamuel)
        case "II Kings" => Some(SecondKings)
        case "II Chronicles" => Some(SecondChronicles)
        case "II Maccabees" => Some(SecondMaccabees)
        case "II Corinthians" => Some(SecondCorinthians)
        case "II Thessalonians" => Some(SecondThessalonians)
        case "II Timothy" => Some(SecondTimothy)
        case "II Peter" => Some(SecondPeter)
        case "II John" => Some(SecondJohn)
        case "III John" => Some(ThirdJohn)
        case _ => None)
      case 's' =>
        (match name
        case "Isaiah" => Some(Isaiah)
        case _ => None)
      case _ => None)
    case 'F' =>
      (match name
      case "FirstSamuel" => Some(FirstSamuel)
      case "FirstKings" => Some(FirstKings)
      case "FirstChronicles" => Some(FirstChronicles)
      case "FirstMaccabees" => Some(FirstMaccabees)
      case "FirstCorinthians" => Some(FirstCorinthians)
      case "FirstThessalonians" => Some(FirstThessalonians)
      case "FirstTimothy" => Some(FirstTimothy)
      case "FirstPeter" => Some(FirstPeter)
      case "FirstJohn" => Some(FirstJohn)
      case _ => None)
    case '2' =>
      (match name
      case "2Samuel" => Some(SecondSamuel)
      case "2Kings" => Some(SecondKings)
      case "2Chronicles" => Some(SecondChronicles)
      case "2Maccabees" => Some(SecondMaccabees)
      case "2Corinthians" => Some(SecondCorinthians)
      case "2Thessalonians" => Some(SecondThessalonians)
      case "2Timothy" => Some(SecondTimothy)
      case "2Peter" => Some(SecondPeter)
      case "2John" => Some(SecondJohn)
      case _ => None)
    case 'S' =>
      (match name
      case "SecondSamuel" => Some(SecondSamuel)
      case "SecondKings" => Some(SecondKings)
      case "SecondChronicles" => Some(SecondChronicles)
      case "SecondMaccabees" => Some(SecondMaccabees)
      case "SongOfSongs" => Some(SongOfSongs)
      case "Sirach" => Some(Sirach)
      case "Susanna" => Some(Susanna)
      case "SecondCorinthians" => Some(SecondCorinthians)
      case "SecondThessalonians" => Some(SecondThessalonians)
      case "SecondTimothy" => Some(SecondTimothy)
      case "SecondPeter" => Some(SecondPeter)
      case "SecondJohn" => Some(SecondJohn)
      case _ => None)
    case 'T' =>
      (match name
      case "Tobit" => Some(Tobit)
      case "Titus" => Some(Titus)
      case "ThirdJohn" => Some(ThirdJohn)
      case _ => None)
    case 'A' =>
      (match name
      case "AdditionsToEsther" => Some(AdditionsToEsther)
      case "Amos" => Some(Amos)
      case "Acts" => Some(Acts)
      case _ => None)
    case 'P' =>
      (match name
      case "Psalms" => Some(Psalms)
      case "Proverbs" => Some(Proverbs)
      case "PrayerOfAzariah" => Some(PrayerOfAzariah)
      case "Philippians" => Some(Philippians)
      case "Philemon" => Some(Philemon)
      case _ => None)
    case 'W' =>
      (match name
      case "Wisdom" => Some(Wisdom)
      case _ => None)
    case 'B' =>
      (match name
      case "Baruch" => Some(Baruch)
      case "BelAndTheDragon" => Some(BelAndTheDragon)
      case _ => None)
    case 'H' =>
      (match name
      case "Hosea" => Some(Hosea)
      case "Habakkuk" => Some(Habakkuk)
      case "Haggai" => Some(Haggai)
      case "Hebrews" => Some(Hebrews)
      case _ => None)
    case 'O' =>
      (match name
      case "Obadiah" => Some(Obadiah)
      case _ => None)
    case 'M' =>
      (match name
      case "Micah" => Some(Micah)
      case "Malachi" => Some(Malachi)
      case "Matthew" => Some(Matthew)
      case "Mark" => Some(Mark)
      case _ => None)
    case 'Z' =>
      (match name
      case "Zephaniah" => Some(Zephaniah)
      case "Zechariah" => Some(Zechariah)
      case _ => None)
    case 'C' =>
      (match name
      case "Colossians" => Some(Colossians)
      case _ => None)
    case '3' =>
      (match name
      case "3John" => Some(ThirdJohn)
      case _ => None)
    case _ => None
  }

  /** The parser sees only the trimmed text. */
  lemma ParseTrimEqual(a: string, b: string)
    requires Trim(a) == Trim(b)
    ensures Parse(a) == Parse(b)
  {
  }

  /** Whitespace around a spelling never changes the outcome. */
  lemma ParsePadded(w1: string, name: string, w2: string)
    requires AllWhitespace(w1) && AllWhitespace(w2) && Trimmed(name)
    ensures Parse(w1 + name + w2) == Parse(name)
  {
    assert Trim(w1 + name + w2) == Trim(name) by {
      TrimSurrounded(w1, name, w2);
      TrimSurrounded([], name, []);
      assert [] + name + [] == name;
    }
    ParseTrimEqual(w1 + name + w2, name);
  }

  /** Blank input names no book, and the error carries the empty text. */
  lemma ParseBlank(w: string)
    requires AllWhitespace(w)
    ensures Parse(w) == Err(UnknownName(""))
  {
    assert Trim(w) == [] by {
      TrimSurrounded(w, [], []);
      assert w + [] + [] == w;
    }
    assert Lookup([]) == None;
  }

  /** Text that is already trimmed is looked up as it stands. */
  lemma ParseOfTrimmed(name: string)
    requires Trimmed(name)
    ensures Parse(name) == match Lookup(name) case Some(b) => Ok(b) case None => Err(UnknownName(name))
  {
    assert Trim(name) == name by {
      TrimSurrounded([], name, []);
      assert [] + name + [] == name;
    }
  }

  /** A numbered book accepts its digit, roman and word forms alike; with
      `ParseOfTrimmed` each of them parses to `FirstSamuel`. */
  lemma SamuelSpellings()
    ensures Lookup("1Samuel") == Lookup("I Samuel") == Lookup("FirstSamuel") == Some(FirstSamuel)
  {
  }

  /** Matching is exact: a longer title or another casing is not a spelling. */
  lemma RejectedSpellings()
    ensures Lookup("Revelation of John") == None
  {
  }

  /** The name `Serialize` writes for a book: its variant name, looked up
      by halving the range of positions. */
  function VariantName(b: BookName): string {
    if b < 40 then
      (if b < 20 then
        (if b < 10 then
          (match b
          case 0 => "Genesis"
          case 1 => "Exodus"
          case 2 => "Leviticus"
          case 3 => "Numbers"
          case 4 => "Deuteronomy"
          case 5 => "Joshua"
          case 6 => "Judges"
          case 7 => "Ruth"
          case 8 => "FirstSamuel"
          case _ => "SecondSamuel")
        else
          (match b
          case 10 => "FirstKings"
          case 11 => "SecondKings"
          case 12 => "FirstChronicles"
          case 13 => "SecondChronicles"
          case 14 => "Ezra"
          case 15 => "Nehemiah"
          case 16 => "Tobit"
          case 17 => "Judith"
          case 18 => "Esther"
          case _ => "AdditionsToEsther"))
      else
        (if b < 30 then
          (match b
          case 20 => "FirstMaccabees"
          case 21 => "SecondMaccabees"
          case 22 => "Job"
          case 23 => "Psalms"
          case 24 => "Proverbs"
          case 25 => "Ecclesiastes"
          case 26 => "SongOfSongs"
          case 27 => "Wisdom"
          case 28 => "Sirach"
          case _ => "Isaiah")
        else
          (match b
          case 30 => "Jeremiah"
          case 31 => "Lamentations"
          case 32 => "Baruch"
          case 33 => "LetterOfJeremiah"
          case 34 => "Ezekiel"
          case 35 => "Daniel"
          case 36 => "PrayerOfAzariah"
          case 37 => "Susanna"
          case 38 => "BelAndTheDragon"
          case _ => "Hosea")))
    else
      (if b < 60 then
        (if b < 50 then
          (match b
          case 40 => "Joel"
          case 41 => "Amos"
          case 42 => "Obadiah"
          case 43 => "Jonah"
          case 44 => "Micah"
          case 45 => "Nahum"
          case 46 => "Habakkuk"
          case 47 => "Zephaniah"
          case 48 => "Haggai"
          case _ => "Zechariah")
        else
          (match b
          case 50 => "Malachi"
          case 51 => "Matthew"
          case 52 => "Mark"
          case 53 => "Luke"
          case 54 => "John"
          case 55 => "Acts"
          case 56 => "Romans"
          case 57 => "FirstCorinthians"
          case 58 => "SecondCorinthians"
          case _ => "Galatians"))
      else
        (if b < 70 then
          (match b
          case 60 => "Ephesians"
          case 61 => "Philippians"
          case 62 => "Colossians"
          case 63 => "FirstThessalonians"
          case 64 => "SecondThessalonians"
          case 65 => "FirstTimothy"
          case 66 => "SecondTimothy"
          case 67 => "Titus"
          case 68 => "Philemon"
          case _ => "Hebrews")
        else
          (match b
          case 70 => "James"
          case 71 => "FirstPeter"
          case 72 => "SecondPeter"
          case 73 => "FirstJohn"
          case 74 => "SecondJohn"
          case 75 => "ThirdJohn"
          case 76 => "Jude"
          case _ => "Revelation")))
  }

  /** Every book's variant name parses back to that book: the parser
      accepts what `Serialize` writes. */
  lemma ParseVariantName(b: BookName)
    ensures Parse(VariantName(b)) == Ok(b)
  {
    if b < 5 { VariantNamePart1(b); }
    else if b < 10 { VariantNamePart2(b); }
    else if b < 15 { VariantNamePart3(b); }
    else if b < 20 { VariantNamePart4(b); }
    else if b < 25 { VariantNamePart5(b); }
    else if b < 30 { VariantNamePart6(b); }
    else if b < 35 { VariantNamePart7(b); }
    else if b < 40 { VariantNamePart8(b); }
    else if b < 45 { VariantNamePart9(b); }
    else if b < 50 { VariantNamePart10(b); }
    else if b < 55 { VariantNamePart11(b); }
    else if b < 60 { VariantNamePart12(b); }
    else if b < 65 { VariantNamePart13(b); }
    else if b < 70 { VariantNamePart14(b); }
    else if b < 75 { VariantNamePart15(b); }
    else { VariantNamePart16(b); }
    ParseOfTrimmed(VariantName(b));
  }

  lemma VariantNamePart1(b: BookName)
    requires 0 <= b < 5
    ensures Lookup(VariantName(b)) == Some(b) && Trimmed(VariantName(b))
  {
  }

  lemma VariantNamePart2(b: BookName)
    requires 5 <= b < 10
    ensures Lookup(VariantName(b)) == Some(b) && Trimmed(VariantName(b))
  {
  }

  lemma VariantNamePart3(b: BookName)
    requires 10 <= b < 15
    ensures Lookup(VariantName(b)) == Some(b) && Trimmed(VariantName(b))
  {
  }

  lemma VariantNamePart4(b: BookName)
    requires 15 <= b < 20
    ensures Lookup(VariantName(b)) == Some(b) && Trimmed(VariantName(b))
  {
  }

  lemma VariantNamePart5(b: BookName)
    requires 20 <= b < 25
    ensures Lookup(VariantName(b)) == Some(b) && Trimmed(VariantName(b))
  {
  }

  lemma VariantNamePart6(b: BookName)
    requires 25 <= b < 30
    ensures Lookup(VariantName(b)) == Some(b) && Trimmed(VariantName(b))
  {
  }

  lemma VariantNamePart7(b: BookName)
    requires 30 <= b < 35
    ensures Lookup(VariantName(b)) == Some(b) && Trimmed(VariantName(b))
  {
  }

  lemma VariantNamePart8(b: BookName)
    requires 35 <= b < 40
    ensures Lookup(VariantName(b)) == Some(b) && Trimmed(VariantName(b))
  {
  }

  lemma VariantNamePart9(b: BookName)
    requires 40 <= b < 45
    ensures Lookup(VariantName(b)) == Some(b) && Trimmed(VariantName(b))
  {
  }

  lemma VariantNamePart10(b: BookName)
    requires 45 <= b < 50
    ensures Lookup(VariantName(b)) == Some(b) && Trimmed(VariantName(b))
  {
  }

  lemma VariantNamePart11(b: BookName)
    requires 50 <= b < 55
    ensures Lookup(VariantName(b)) == Some(b) && Trimmed(VariantName(b))
  {
  }

  lemma VariantNamePart12(b: BookName)
    requires 55 <= b < 60
    ensures Lookup(VariantName(b)) == Some(b) && Trimmed(VariantName(b))
  {
  }

  lemma VariantNamePart13(b: BookName)
    requires 60 <= b < 65
    ensures Lookup(VariantName(b)) == Some(b) && Trimmed(VariantName(b))
  {
  }

  lemma VariantNamePart14(b: BookName)
    requires 65 <= b < 70
    ensures Lookup(VariantName(b)) == Some(b) && Trimmed(VariantName(b))
  {
  }

  lemma VariantNamePart15(b: BookName)
    requires 70 <= b < 75
    ensures Lookup(VariantName(b)) == Some(b) && Trimmed(VariantName(b))
  {
  }

  lemma VariantNamePart16(b: BookName)
    requires 75 <= b
    ensures Lookup(VariantName(b)) == Some(b) && Trimmed(VariantName(b))
  {
  }
}
