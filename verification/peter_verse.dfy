/** Verse numbers of the v1 translation format and their order
    (rust/peter/src/translation/v1/verse.rs). */
module PeterVerse {
  import opened Wrappers

  datatype Ordering = Less | Equal | Greater

  function Reverse(o: Ordering): Ordering {
    match o
    case Less => Greater
    case Equal => Equal
    case Greater => Less
  }

  /** `u32::cmp`. */
  function CompareNat(a: nat, b: nat): (r: Ordering)
    ensures r == Less <==> a < b
    ensures r == Equal <==> a == b
    ensures r == Greater <==> a > b
  {
    if a < b then Less else if a == b then Equal else Greater
  }

  /** `VerseNumber`: one verse, or a span of verses printed as one. The
      numbers are `u32` in the source. */
  datatype VerseNumber = Single(n: nat) | Range(first: nat, last: nat)

  datatype Verse = Verse(number: VerseNumber, content: string, footnotes: Option<string>)

  /** The left bound: the verse itself, or the first of the span. */
  function Start(v: VerseNumber): nat {
    match v
    case Single(a) => a
    case Range(a, _) => a
  }

  /** `Ord::cmp` as written: the left bounds decide; at equal left bounds a
      single verse comes before a span, and two spans compare their right
      bounds. */
  function Cmp(x: VerseNumber, y: VerseNumber): (r: Ordering)
    ensures Start(x) != Start(y) ==> r == CompareNat(Start(x), Start(y))
  {
    match (x, y)
    case (Single(a), Single(b)) => CompareNat(a, b)
    case (Single(a), Range(b, _)) =>
      (match CompareNat(a, b) case Equal => Less case ord => ord)
    case (Range(a, _), Single(b)) =>
      (match CompareNat(a, b) case Equal => Greater case ord => ord)
    case (Range(a1, b1), Range(a2, b2)) =>
      (match CompareNat(a1, a2) case Equal => CompareNat(b1, b2) case ord => ord)
  }

  /** `partial_cmp`: always defined. */
  function PartialCmp(x: VerseNumber, y: VerseNumber): (r: Option<Ordering>)
    ensures r == Some(Cmp(x, y))
  {
    Some(Cmp(x, y))
  }

  // ---------------------------------------------------------------------------
  // The order as a key

  /** The sort key: left bound, then single before span, then right bound. */
  function Key(v: VerseNumber): (nat, nat, nat) {
    match v
    case Single(a) => (a, 0, 0)
    case Range(a, b) => (a, 1, b)
  }

  /** Lexicographic comparison of keys. */
  function CompareKeys(k: (nat, nat, nat), l: (nat, nat, nat)): Ordering {
    if k.0 != l.0 then CompareNat(k.0, l.0)
    else if k.1 != l.1 then CompareNat(k.1, l.1)
    else CompareNat(k.2, l.2)
  }

  /** `cmp` is the lexicographic order of the keys. */
  lemma CmpIsKeyOrder(x: VerseNumber, y: VerseNumber)
    ensures Cmp(x, y) == CompareKeys(Key(x), Key(y))
  {
  }

  /** Different verse numbers have different keys. */
  lemma KeyInjective(x: VerseNumber, y: VerseNumber)
    requires Key(x) == Key(y)
    ensures x == y
  {
  }

  /** `cmp` reports `Equal` exactly for equal verse numbers, as the derived
      equality requires of `Ord`. */
  lemma CmpEqual(x: VerseNumber, y: VerseNumber)
    ensures Cmp(x, y) == Equal <==> x == y
  {
    CmpIsKeyOrder(x, y);
    if Cmp(x, y) == Equal {
      KeyInjective(x, y);
    }
  }

  /** Swapping the arguments reverses the answer. */
  lemma CmpAntisymmetric(x: VerseNumber, y: VerseNumber)
    ensures Cmp(y, x) == Reverse(Cmp(x, y))
  {
    CmpIsKeyOrder(x, y);
    CmpIsKeyOrder(y, x);
  }

  /** `Less` is transitive. */
  lemma CmpTransitive(x: VerseNumber, y: VerseNumber, z: VerseNumber)
    requires Cmp(x, y) == Less && Cmp(y, z) == Less
    ensures Cmp(x, z) == Less
  {
    CmpIsKeyOrder(x, y);
    CmpIsKeyOrder(y, z);
    CmpIsKeyOrder(x, z);
  }

  /** A single verse sorts before every span that starts at it. */
  lemma SingleBeforeRange(a: nat, b: nat)
    ensures Cmp(Single(a), Range(a, b)) == Less
    ensures Cmp(Range(a, b), Single(a)) == Greater
  {
  }
}
