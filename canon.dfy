// The fixed canon of 66 book names, in order, shared by the ingestion script and the
// browser script, and the facts about it that the rest of the model relies on: every
// name has the plain shape of a book title, and no lower-cased name is a prefix of
// another (so the names, their lower-case forms and their slugs are pairwise distinct).
//
// The list is assembled from its traditional sections so that the solver checks the
// names a section at a time. Prefix-freeness goes through an integer key: the first
// five lower-cased characters read as a base-256 number.
module CanonOrder {
  import opened Text
  import opened Slugs
  import opened RefPattern

  /** The five books of the law. */
  const Law: seq<string> := ["Genesis", "Exodus", "Leviticus", "Numbers", "Deuteronomy"]
  /** The historical books. */
  const History: seq<string> := ["Joshua", "Judges", "Ruth", "1 Samuel", "2 Samuel", "1 Kings", "2 Kings", "1 Chronicles", "2 Chronicles", "Ezra", "Nehemiah", "Esther"]
  /** Poetry and wisdom. */
  const Wisdom: seq<string> := ["Job", "Psalms", "Proverbs", "Ecclesiastes", "Song of Songs"]
  /** The major prophets. */
  const MajorProphets: seq<string> := ["Isaiah", "Jeremiah", "Lamentations", "Ezekiel", "Daniel"]
  /** The twelve minor prophets. */
  const MinorProphets: seq<string> := ["Hosea", "Joel", "Amos", "Obadiah", "Jonah", "Micah", "Nahum", "Habakkuk", "Zephaniah", "Haggai", "Zechariah", "Malachi"]
  /** The gospels and Acts. */
  const GospelsAndActs: seq<string> := ["Matthew", "Mark", "Luke", "John", "Acts"]
  /** The letters of Paul. */
  const PaulineEpistles: seq<string> := ["Romans", "1 Corinthians", "2 Corinthians", "Galatians", "Ephesians", "Philippians", "Colossians", "1 Thessalonians", "2 Thessalonians", "1 Timothy", "2 Timothy", "Titus", "Philemon"]
  /** The general letters and Revelation. */
  const GeneralEpistles: seq<string> := ["Hebrews", "James", "1 Peter", "2 Peter", "1 John", "2 John", "3 John", "Jude", "Revelation"]

  const OldTestament: seq<string> := Law + History + Wisdom + MajorProphets + MinorProphets
  const NewTestament: seq<string> := GospelsAndActs + PaulineEpistles + GeneralEpistles

  /** `CANON` / `BOOKS`: the 66 books in canonical order. */
  const Canon: seq<string> := OldTestament + NewTestament

  /** Position k of a title holds a letter; a leading digit 1-3 followed by a space;
      or a single interior space followed by a letter. */
  predicate TitleChar(s: string, k: nat)
    requires k < |s|
  {
    || IsAsciiLetter(s[k])
    || (k == 0 && '1' <= s[0] <= '3' && |s| >= 3 && s[1] == ' ')
    || (s[k] == ' ' && 0 < k < |s| - 1 && IsAsciiLetter(s[k + 1]))
  }

  /** The shape of every canonical name: "Genesis", "Song of Songs", "1 Corinthians". */
  predicate Title(s: string) {
    |s| >= 1 && forall k | 0 <= k < |s| :: TitleChar(s, k)
  }

  /** The k-th lower-cased character as a number, 0 past the end. */
  function KeyDigit(s: string, k: nat): nat {
    if k < |s| then LowerChar(s[k]) as nat else 0
  }

  /** The first five lower-cased characters as a base-256 number. */
  function Key(s: string): nat {
    (((KeyDigit(s, 0) * 256 + KeyDigit(s, 1)) * 256 + KeyDigit(s, 2)) * 256 + KeyDigit(s, 3)) * 256 + KeyDigit(s, 4)
  }

  /** The key of each canonical name, written out (two hex digits per character). */
  function CanonKey(i: nat): nat
    requires i < 66
  {
    match i
    case 0 => 0x67656e6573  // Genesis
    case 1 => 0x65786f6475  // Exodus
    case 2 => 0x6c65766974  // Leviticus
    case 3 => 0x6e756d6265  // Numbers
    case 4 => 0x6465757465  // Deuteronomy
    case 5 => 0x6a6f736875  // Joshua
    case 6 => 0x6a75646765  // Judges
    case 7 => 0x7275746800  // Ruth
    case 8 => 0x312073616d  // 1 Samuel
    case 9 => 0x322073616d  // 2 Samuel
    case 10 => 0x31206b696e  // 1 Kings
    case 11 => 0x32206b696e  // 2 Kings
    case 12 => 0x3120636872  // 1 Chronicles
    case 13 => 0x3220636872  // 2 Chronicles
    case 14 => 0x657a726100  // Ezra
    case 15 => 0x6e6568656d  // Nehemiah
    case 16 => 0x6573746865  // Esther
    case 17 => 0x6a6f620000  // Job
    case 18 => 0x7073616c6d  // Psalms
    case 19 => 0x70726f7665  // Proverbs
    case 20 => 0x6563636c65  // Ecclesiastes
    case 21 => 0x736f6e6720  // Song of Songs
    case 22 => 0x6973616961  // Isaiah
    case 23 => 0x6a6572656d  // Jeremiah
    case 24 => 0x6c616d656e  // Lamentations
    case 25 => 0x657a656b69  // Ezekiel
    case 26 => 0x64616e6965  // Daniel
    case 27 => 0x686f736561  // Hosea
    case 28 => 0x6a6f656c00  // Joel
    case 29 => 0x616d6f7300  // Amos
    case 30 => 0x6f62616469  // Obadiah
    case 31 => 0x6a6f6e6168  // Jonah
    case 32 => 0x6d69636168  // Micah
    case 33 => 0x6e6168756d  // Nahum
    case 34 => 0x686162616b  // Habakkuk
    case 35 => 0x7a65706861  // Zephaniah
    case 36 => 0x6861676761  // Haggai
    case 37 => 0x7a65636861  // Zechariah
    case 38 => 0x6d616c6163  // Malachi
    case 39 => 0x6d61747468  // Matthew
    case 40 => 0x6d61726b00  // Mark
    case 41 => 0x6c756b6500  // Luke
    case 42 => 0x6a6f686e00  // John
    case 43 => 0x6163747300  // Acts
    case 44 => 0x726f6d616e  // Romans
    case 45 => 0x3120636f72  // 1 Corinthians
    case 46 => 0x3220636f72  // 2 Corinthians
    case 47 => 0x67616c6174  // Galatians
    case 48 => 0x6570686573  // Ephesians
    case 49 => 0x7068696c69  // Philippians
    case 50 => 0x636f6c6f73  // Colossians
    case 51 => 0x3120746865  // 1 Thessalonians
    case 52 => 0x3220746865  // 2 Thessalonians
    case 53 => 0x312074696d  // 1 Timothy
    case 54 => 0x322074696d  // 2 Timothy
    case 55 => 0x7469747573  // Titus
    case 56 => 0x7068696c65  // Philemon
    case 57 => 0x6865627265  // Hebrews
    case 58 => 0x6a616d6573  // James
    case 59 => 0x3120706574  // 1 Peter
    case 60 => 0x3220706574  // 2 Peter
    case 61 => 0x31206a6f68  // 1 John
    case 62 => 0x32206a6f68  // 2 John
    case 63 => 0x33206a6f68  // 3 John
    case 64 => 0x6a75646500  // Jude
    case 65 => 0x726576656c  // Revelation
  }

  /* The group facts below (`LawFacts1`, `HistoryFacts2`, ...) and the `Low`/`Mid`/`High`
     parts of the `ShortKeysApart` lemmas state nothing new: each checks a few names or a
     slice of the keys, so that no single proof is too large for the solver. `CanonFacts`
     and the `ShortKeysApart` lemmas gather them. */

  lemma LawFacts1()
    ensures forall k | 0 <= k < 3 :: Title(Law[k]) && Key(Law[k]) == CanonKey(0 + k)
  {
  }

  lemma LawFacts2()
    ensures forall k | 3 <= k < 5 :: Title(Law[k]) && Key(Law[k]) == CanonKey(0 + k)
  {
  }

  lemma LawFacts()
    ensures forall k | 0 <= k < |Law| :: Title(Law[k]) && Key(Law[k]) == CanonKey(0 + k)
  {
    LawFacts1();
    LawFacts2();
  }

  lemma HistoryFacts1()
    ensures forall k | 0 <= k < 3 :: Title(History[k]) && Key(History[k]) == CanonKey(5 + k)
  {
  }

  lemma HistoryFacts2()
    ensures forall k | 3 <= k < 6 :: Title(History[k]) && Key(History[k]) == CanonKey(5 + k)
  {
  }

  lemma HistoryFacts3()
    ensures forall k | 6 <= k < 9 :: Title(History[k]) && Key(History[k]) == CanonKey(5 + k)
  {
  }

  lemma HistoryFacts4()
    ensures forall k | 9 <= k < 12 :: Title(History[k]) && Key(History[k]) == CanonKey(5 + k)
  {
  }

  lemma WisdomFacts1()
    ensures forall k | 0 <= k < 3 :: Title(Wisdom[k]) && Key(Wisdom[k]) == CanonKey(17 + k)
  {
  }

  lemma WisdomFacts2()
    ensures forall k | 3 <= k < 5 :: Title(Wisdom[k]) && Key(Wisdom[k]) == CanonKey(17 + k)
  {
  }

  lemma MajorProphetsFacts1()
    ensures forall k | 0 <= k < 3 :: Title(MajorProphets[k]) && Key(MajorProphets[k]) == CanonKey(22 + k)
  {
  }

  lemma MajorProphetsFacts2()
    ensures forall k | 3 <= k < 5 :: Title(MajorProphets[k]) && Key(MajorProphets[k]) == CanonKey(22 + k)
  {
  }

  lemma MinorProphetsFacts1()
    ensures forall k | 0 <= k < 3 :: Title(MinorProphets[k]) && Key(MinorProphets[k]) == CanonKey(27 + k)
  {
  }

  lemma MinorProphetsFacts2()
    ensures forall k | 3 <= k < 6 :: Title(MinorProphets[k]) && Key(MinorProphets[k]) == CanonKey(27 + k)
  {
  }

  lemma MinorProphetsFacts3()
    ensures forall k | 6 <= k < 9 :: Title(MinorProphets[k]) && Key(MinorProphets[k]) == CanonKey(27 + k)
  {
  }

  lemma MinorProphetsFacts4()
    ensures forall k | 9 <= k < 12 :: Title(MinorProphets[k]) && Key(MinorProphets[k]) == CanonKey(27 + k)
  {
  }

  lemma GospelsAndActsFacts1()
    ensures forall k | 0 <= k < 3 :: Title(GospelsAndActs[k]) && Key(GospelsAndActs[k]) == CanonKey(39 + k)
  {
  }

  lemma GospelsAndActsFacts2()
    ensures forall k | 3 <= k < 5 :: Title(GospelsAndActs[k]) && Key(GospelsAndActs[k]) == CanonKey(39 + k)
  {
  }

  lemma PaulineEpistlesFacts1()
    ensures forall k | 0 <= k < 3 :: Title(PaulineEpistles[k]) && Key(PaulineEpistles[k]) == CanonKey(44 + k)
  {
  }

  lemma PaulineEpistlesFacts2()
    ensures forall k | 3 <= k < 6 :: Title(PaulineEpistles[k]) && Key(PaulineEpistles[k]) == CanonKey(44 + k)
  {
  }

  lemma PaulineEpistlesFacts3()
    ensures forall k | 6 <= k < 9 :: Title(PaulineEpistles[k]) && Key(PaulineEpistles[k]) == CanonKey(44 + k)
  {
  }

  lemma PaulineEpistlesFacts4()
    ensures forall k | 9 <= k < 13 :: Title(PaulineEpistles[k]) && Key(PaulineEpistles[k]) == CanonKey(44 + k)
  {
  }

  lemma GeneralEpistlesFacts1()
    ensures forall k | 0 <= k < 3 :: Title(GeneralEpistles[k]) && Key(GeneralEpistles[k]) == CanonKey(57 + k)
  {
  }

  lemma GeneralEpistlesFacts2()
    ensures forall k | 3 <= k < 6 :: Title(GeneralEpistles[k]) && Key(GeneralEpistles[k]) == CanonKey(57 + k)
  {
  }

  lemma GeneralEpistlesFacts3()
    ensures forall k | 6 <= k < 9 :: Title(GeneralEpistles[k]) && Key(GeneralEpistles[k]) == CanonKey(57 + k)
  {
  }

  lemma LawPlace()
    ensures |Canon| == 66 && forall i | 0 <= i < 5 :: Canon[i] == Law[i - 0]
  {
  }

  lemma HistoryPlace()
    ensures |Canon| == 66 && forall i | 5 <= i < 17 :: Canon[i] == History[i - 5]
  {
  }

  lemma WisdomPlace()
    ensures |Canon| == 66 && forall i | 17 <= i < 22 :: Canon[i] == Wisdom[i - 17]
  {
  }

  lemma MajorProphetsPlace()
    ensures |Canon| == 66 && forall i | 22 <= i < 27 :: Canon[i] == MajorProphets[i - 22]
  {
  }

  lemma MinorProphetsPlace()
    ensures |Canon| == 66 && forall i | 27 <= i < 39 :: Canon[i] == MinorProphets[i - 27]
  {
  }

  lemma GospelsAndActsPlace()
    ensures |Canon| == 66 && forall i | 39 <= i < 44 :: Canon[i] == GospelsAndActs[i - 39]
  {
  }

  lemma PaulineEpistlesPlace()
    ensures |Canon| == 66 && forall i | 44 <= i < 57 :: Canon[i] == PaulineEpistles[i - 44]
  {
  }

  lemma GeneralEpistlesPlace()
    ensures |Canon| == 66 && forall i | 57 <= i < 66 :: Canon[i] == GeneralEpistles[i - 57]
  {
  }

  /** Every canonical name is a title, and its key is the one in the table. */
  lemma CanonFacts()
    ensures |Canon| == 66
    ensures forall i | 0 <= i < 66 :: Title(Canon[i]) && Key(Canon[i]) == CanonKey(i)
  {
    LawPlace();
    HistoryPlace();
    WisdomPlace();
    MajorProphetsPlace();
    MinorProphetsPlace();
    GospelsAndActsPlace();
    PaulineEpistlesPlace();
    GeneralEpistlesPlace();
    LawFacts();
    HistoryFacts1();
    HistoryFacts2();
    HistoryFacts3();
    HistoryFacts4();
    WisdomFacts1();
    WisdomFacts2();
    MajorProphetsFacts1();
    MajorProphetsFacts2();
    MinorProphetsFacts1();
    MinorProphetsFacts2();
    MinorProphetsFacts3();
    MinorProphetsFacts4();
    GospelsAndActsFacts1();
    GospelsAndActsFacts2();
    PaulineEpistlesFacts1();
    PaulineEpistlesFacts2();
    PaulineEpistlesFacts3();
    PaulineEpistlesFacts4();
    GeneralEpistlesFacts1();
    GeneralEpistlesFacts2();
    GeneralEpistlesFacts3();
  }

  lemma KeysDistinct()
    ensures forall i, j | 0 <= i < 66 && 0 <= j < 66 && i != j :: CanonKey(i) != CanonKey(j)
  {
  }

  /** A key ending in 1 zero byte(s) (a name of at most 4 characters) shares its
      leading 4 byte(s) with no other key. */
  lemma ShortKeysApart4()
    ensures forall i, j | 0 <= i < 66 && 0 <= j < 66 && i != j && CanonKey(i) % 0x100 == 0 ::
              CanonKey(i) / 0x100 != CanonKey(j) / 0x100
  {
    ShortKeysApart4Low();
    ShortKeysApart4Mid();
    ShortKeysApart4High();
  }

  lemma ShortKeysApart4Low()
    ensures forall i, j | 0 <= i < 22 && 0 <= j < 66 && i != j && CanonKey(i) % 0x100 == 0 ::
              CanonKey(i) / 0x100 != CanonKey(j) / 0x100
  {
  }

  lemma ShortKeysApart4Mid()
    ensures forall i, j | 22 <= i < 44 && 0 <= j < 66 && i != j && CanonKey(i) % 0x100 == 0 ::
              CanonKey(i) / 0x100 != CanonKey(j) / 0x100
  {
  }

  lemma ShortKeysApart4High()
    ensures forall i, j | 44 <= i < 66 && 0 <= j < 66 && i != j && CanonKey(i) % 0x100 == 0 ::
              CanonKey(i) / 0x100 != CanonKey(j) / 0x100
  {
  }

  /** A key ending in 2 zero byte(s) (a name of at most 3 characters) shares its
      leading 3 byte(s) with no other key. */
  lemma ShortKeysApart3()
    ensures forall i, j | 0 <= i < 66 && 0 <= j < 66 && i != j && CanonKey(i) % 0x1_0000 == 0 ::
              CanonKey(i) / 0x1_0000 != CanonKey(j) / 0x1_0000
  {
    ShortKeysApart3Low();
    ShortKeysApart3Mid();
    ShortKeysApart3High();
  }

  lemma ShortKeysApart3Low()
    ensures forall i, j | 0 <= i < 22 && 0 <= j < 66 && i != j && CanonKey(i) % 0x1_0000 == 0 ::
              CanonKey(i) / 0x1_0000 != CanonKey(j) / 0x1_0000
  {
  }

  lemma ShortKeysApart3Mid()
    ensures forall i, j | 22 <= i < 44 && 0 <= j < 66 && i != j && CanonKey(i) % 0x1_0000 == 0 ::
              CanonKey(i) / 0x1_0000 != CanonKey(j) / 0x1_0000
  {
  }

  lemma ShortKeysApart3High()
    ensures forall i, j | 44 <= i < 66 && 0 <= j < 66 && i != j && CanonKey(i) % 0x1_0000 == 0 ::
              CanonKey(i) / 0x1_0000 != CanonKey(j) / 0x1_0000
  {
  }

  /** A key ending in 3 zero byte(s) (a name of at most 2 characters) shares its
      leading 2 byte(s) with no other key. */
  lemma ShortKeysApart2()
    ensures forall i, j | 0 <= i < 66 && 0 <= j < 66 && i != j && CanonKey(i) % 0x100_0000 == 0 ::
              CanonKey(i) / 0x100_0000 != CanonKey(j) / 0x100_0000
  {
    ShortKeysApart2Low();
    ShortKeysApart2Mid();
    ShortKeysApart2High();
  }

  lemma ShortKeysApart2Low()
    ensures forall i, j | 0 <= i < 22 && 0 <= j < 66 && i != j && CanonKey(i) % 0x100_0000 == 0 ::
              CanonKey(i) / 0x100_0000 != CanonKey(j) / 0x100_0000
  {
  }

  lemma ShortKeysApart2Mid()
    ensures forall i, j | 22 <= i < 44 && 0 <= j < 66 && i != j && CanonKey(i) % 0x100_0000 == 0 ::
              CanonKey(i) / 0x100_0000 != CanonKey(j) / 0x100_0000
  {
  }

  lemma ShortKeysApart2High()
    ensures forall i, j | 44 <= i < 66 && 0 <= j < 66 && i != j && CanonKey(i) % 0x100_0000 == 0 ::
              CanonKey(i) / 0x100_0000 != CanonKey(j) / 0x100_0000
  {
  }

  /** A key ending in 4 zero byte(s) (a name of at most 1 characters) shares its
      leading 1 byte(s) with no other key. */
  lemma ShortKeysApart1()
    ensures forall i, j | 0 <= i < 66 && 0 <= j < 66 && i != j && CanonKey(i) % 0x1_0000_0000 == 0 ::
              CanonKey(i) / 0x1_0000_0000 != CanonKey(j) / 0x1_0000_0000
  {
    ShortKeysApart1Low();
    ShortKeysApart1Mid();
    ShortKeysApart1High();
  }

  lemma ShortKeysApart1Low()
    ensures forall i, j | 0 <= i < 22 && 0 <= j < 66 && i != j && CanonKey(i) % 0x1_0000_0000 == 0 ::
              CanonKey(i) / 0x1_0000_0000 != CanonKey(j) / 0x1_0000_0000
  {
  }

  lemma ShortKeysApart1Mid()
    ensures forall i, j | 22 <= i < 44 && 0 <= j < 66 && i != j && CanonKey(i) % 0x1_0000_0000 == 0 ::
              CanonKey(i) / 0x1_0000_0000 != CanonKey(j) / 0x1_0000_0000
  {
  }

  lemma ShortKeysApart1High()
    ensures forall i, j | 44 <= i < 66 && 0 <= j < 66 && i != j && CanonKey(i) % 0x1_0000_0000 == 0 ::
              CanonKey(i) / 0x1_0000_0000 != CanonKey(j) / 0x1_0000_0000
  {
  }

  /* ---------------- from keys to prefixes ---------------- */

  /** The weight of the first key byte past a name of `n < 5` characters, times 256. */
  function Unit(n: nat): nat
    requires 1 <= n < 5
  {
    match n
    case 1 => 0x1_0000_0000
    case 2 => 0x100_0000
    case 3 => 0x1_0000
    case 4 => 0x100
  }

  /** What a lower-case prefix relation between two titles says about their keys. */
  predicate KeysAgree(a: string, b: string)
    requires |a| >= 1
  {
    if |a| >= 5 then Key(a) == Key(b)
    else Key(a) % Unit(|a|) == 0 && Key(a) / Unit(|a|) == Key(b) / Unit(|a|)
  }

  lemma TitleKeyDigits(s: string)
    requires Title(s)
    ensures forall k | 0 <= k < |s| :: 0 < KeyDigit(s, k) < 256
  {
    forall k | 0 <= k < |s| ensures 0 < KeyDigit(s, k) < 256 {
      assert TitleChar(s, k);
    }
  }

  lemma PrefixKey(a: string, b: string)
    requires Title(a) && Title(b)
    ensures StartsWith(Lower(b), Lower(a)) ==> KeysAgree(a, b)
  {
    if StartsWith(Lower(b), Lower(a)) {
      TitleKeyDigits(a);
      TitleKeyDigits(b);
      PrefixDigits(a, b);
      DigitsAgree(a, b);
    }
  }

  lemma PrefixDigits(a: string, b: string)
    requires StartsWith(Lower(b), Lower(a))
    ensures forall k | 0 <= k < |a| :: KeyDigit(a, k) == KeyDigit(b, k)
  {
    forall k | 0 <= k < |a| ensures KeyDigit(a, k) == KeyDigit(b, k) {
      assert Lower(a)[k] == Lower(b)[..|a|][k];
    }
  }

  /** Keys of names whose first |a| characters agree, as base-256 arithmetic. */
  lemma DigitsAgree(a: string, b: string)
    requires 1 <= |a| <= |b|
    requires forall k | 0 <= k < |a| :: KeyDigit(a, k) == KeyDigit(b, k)
    requires forall k | 0 <= k < |b| :: 0 < KeyDigit(b, k) < 256
    ensures KeysAgree(a, b)
  {
    var b3, b4 := KeyDigit(b, 3), KeyDigit(b, 4);
    var b2, b1 := KeyDigit(b, 2), KeyDigit(b, 1);
    assert 0 <= b1 < 256 && 0 <= b2 < 256 && 0 <= b3 < 256 && 0 <= b4 < 256;
  }

  /** No lower-cased canonical name is a prefix of another. */
  lemma PrefixFree()
    ensures forall i, j | 0 <= i < 66 && 0 <= j < 66 && i != j ::
              !StartsWith(Lower(Canon[j]), Lower(Canon[i]))
  {
    CanonFacts();
    KeysDistinct();
    ShortKeysApart4();
    ShortKeysApart3();
    ShortKeysApart2();
    ShortKeysApart1();
    forall i, j | 0 <= i < 66 && 0 <= j < 66 && i != j
      ensures !StartsWith(Lower(Canon[j]), Lower(Canon[i]))
    {
      PrefixKey(Canon[i], Canon[j]);
    }
  }

  /** The canonical names are pairwise distinct, even ignoring case. */
  lemma Distinct()
    ensures forall i, j | 0 <= i < 66 && 0 <= j < 66 && i != j ::
              Lower(Canon[i]) != Lower(Canon[j]) && Canon[i] != Canon[j]
  {
    PrefixFree();
    forall i, j | 0 <= i < 66 && 0 <= j < 66 && i != j
      ensures Lower(Canon[i]) != Lower(Canon[j])
    {
      var a := Lower(Canon[i]);
      assert a[..|a|] == a;
      assert !StartsWith(Lower(Canon[j]), a);
    }
  }

  /** A title is made of words in the sense of the slug: letters, a leading digit,
      single interior spaces. */
  lemma TitleWords(s: string)
    requires Title(s)
    ensures Words(s)
  {
    forall k | 0 <= k < |s|
      ensures || IsAsciiLetter(s[k]) || IsDigit(s[k])
              || (s[k] == ' ' && 0 < k < |s| - 1 && s[k + 1] != ' ')
    {
      assert TitleChar(s, k);
    }
  }

  /** The 66 slugs are pairwise distinct, so a slug names one book. */
  lemma SlugsDistinct()
    ensures forall i, j | 0 <= i < 66 && 0 <= j < 66 && i != j :: Slug(Canon[i]) != Slug(Canon[j])
  {
    CanonFacts();
    Distinct();
    forall i, j | 0 <= i < 66 && 0 <= j < 66 && i != j
      ensures Slug(Canon[i]) != Slug(Canon[j])
    {
      var a, b := Canon[i], Canon[j];
      TitleWords(a);
      TitleWords(b);
      SlugOfWords(a);
      SlugOfWords(b);
      if |a| == |b| {
        var k :| 0 <= k < |a| && Lower(a)[k] != Lower(b)[k];
        assert TitleChar(a, k) && TitleChar(b, k);
        assert HyphenLower(a)[k] != HyphenLower(b)[k];
      }
    }
  }

  /** A title has no whitespace at either end. */
  lemma TitleEnds(s: string)
    requires Title(s)
    ensures !IsSpace(s[0]) && !IsSpace(s[|s| - 1])
  {
    assert TitleChar(s, 0) && TitleChar(s, |s| - 1);
  }

  /** A title is matched whole by the book group of either reference pattern. */
  lemma TitleBookGroup(pat: Pattern, s: string)
    requires Title(s)
    ensures BookGroup(pat, s)
  {
    if IsAsciiLetter(s[0]) {
      forall k | 0 <= k < |s| ensures IsNameChar(s[k]) {
        assert TitleChar(s, k);
      }
    } else {
      assert TitleChar(s, 0);
      forall k | 2 <= k < |s| ensures IsNameChar(s[k]) {
        assert TitleChar(s, k);
      }
    }
  }
}
