// The verse-text ingestion script. Every input line `Book C:V<TAB>text` puts the
// trimmed text in slot V of chapter C of its book; lines that are blank, lack a field,
// fail the reference pattern `^(\d?\s?[A-Za-z .]+)\s+(\d+):(\d+)$` or name an unknown
// book are skipped. The 66 books exist from the start, in canon order, whatever the
// order of the lines. A line with chapter 0, or whose book group names a property every
// object inherits (such as "toString"), makes the script throw.
module Ingest {
  import opened Text
  import opened Slugs
  import opened CanonOrder
  import opened RefPattern

  /* ---------------- the book lookup ---------------- */

  /** `bookIndex`: every canonical name mapped to its position, and nothing else. */
  function BookIndex(): (m: map<string, nat>)
    ensures forall i | 0 <= i < |Canon| :: Canon[i] in m && m[Canon[i]] == i
    ensures forall b | b in m :: m[b] < |Canon| && Canon[m[b]] == b
  {
    CanonFacts();
    Distinct();
    map i | 0 <= i < |Canon| :: Canon[i] := i
  }

  /** The lookup is exact: a name that differs from a canonical one only in letter
      case is not found. */
  lemma LookupCaseSensitive(b: string, i: nat)
    requires i < |Canon| && Lower(b) == Lower(Canon[i]) && b != Canon[i]
    ensures b !in BookIndex()
  {
    CanonFacts();
    Distinct();
    forall j | 0 <= j < |Canon| ensures Canon[j] != b {
      if j != i {
        assert Lower(Canon[j]) != Lower(Canon[i]);
      }
    }
  }

  /** For instance, "genesis" is not a book. */
  lemma LookupExample(b: string)
    requires b == "genesis"
    ensures b !in BookIndex()
  {
    LawPlace();
    LawFacts();
    assert Canon[0] == "Genesis";
    LookupCaseSensitive(b, 0);
  }

  /* ---------------- one line ---------------- */

  /** `m[1].replace(/\s+/g, " ").trim()`: whitespace runs become single spaces and
      the ends are trimmed; nothing but whitespace is dropped. */
  function NormalizeBook(g: string): (r: string)
    ensures forall k | 0 <= k < |r| :: IsSpace(r[k]) ==> r[k] == ' '
    ensures NoAdjacent(r, IsSpace)
    ensures Trimmed(r)
    ensures Keep(r, IsSpace) == Keep(g, IsSpace)
  {
    var c := CollapseSpaces(g);
    TrimKeep(c);
    TrimCollapsed(c);
    Trim(c)
  }

  /** A canonical name is left as it is. */
  lemma NormalizeTitle(t: string)
    requires Title(t)
    ensures NormalizeBook(t) == t
  {
    forall k | 0 <= k < |t|
      ensures IsSpace(t[k]) ==> t[k] == ' '
      ensures k < |t| - 1 ==> !(IsSpace(t[k]) && IsSpace(t[k + 1]))
    {
      assert TitleChar(t, k);
      if k < |t| - 1 {
        assert TitleChar(t, k + 1);
      }
    }
    CollapseFixedPoint(t, IsSpace, ' ');
    TitleEnds(t);
    TrimUnchanged(t);
  }

  /** Each internal whitespace run becomes exactly one space: a run between two
      non-whitespace characters normalises as a single space would. */
  lemma NormalizeRun(a: string, run: string, b: string)
    requires run != [] && AllSpace(run)
    requires a == [] || !IsSpace(a[|a| - 1])
    requires b == [] || !IsSpace(b[0])
    ensures NormalizeBook(a + run + b) == NormalizeBook(a + " " + b)
  {
    CollapseRunBetween(a, run, b, IsSpace, ' ');
    CollapseRunBetween(a, " ", b, IsSpace, ' ');
  }

  /** Whitespace at either end is dropped: a text padded with whitespace normalises as
      the text itself. */
  lemma NormalizePadded(p1: string, g: string, p2: string)
    requires AllSpace(p1) && AllSpace(p2)
    requires g != [] && !IsSpace(g[0]) && !IsSpace(g[|g| - 1])
    ensures NormalizeBook(p1 + g + p2) == NormalizeBook(g)
  {
    var c := CollapseSpaces(g);
    CollapseSpacesPadded(p1, g, p2);
    CollapseSpacesEnds(g);
    TrimPadded(Pad(p1), c, Pad(p2));
    TrimUnchanged(c);
  }

  /** A book group that differs from a canonical name only in its whitespace runs and
      its outer whitespace normalises to that name; for instance " Song  of<TAB>Songs ". */
  lemma NormalizeExample(g: string)
    requires g == " Song  of\tSongs "
    ensures NormalizeBook(g) == "Song of Songs"
  {
    var m := "Song  of\tSongs";
    assert g == " " + m + " ";
    SongSplits();
    calc {
      NormalizeBook(g);
      { NormalizePadded(" ", m, " "); }
      NormalizeBook("Song" + "  " + "of\tSongs");
      { NormalizeRun("Song", "  ", "of\tSongs"); }
      NormalizeBook("Song of" + "\t" + "Songs");
      { NormalizeRun("Song of", "\t", "Songs"); }
      NormalizeBook(Wisdom[4]);
      { WisdomFacts2(); NormalizeTitle(Wisdom[4]); }
      Wisdom[4];
    }
  }

  /** The pieces of the example above, cut at its whitespace runs. */
  lemma SongSplits()
    ensures "Song  of\tSongs" == "Song" + "  " + "of\tSongs"
    ensures "Song" + " " + "of\tSongs" == "Song of" + "\t" + "Songs"
    ensures "Song of" + " " + "Songs" == Wisdom[4]
  {
  }

  /** Normalising twice is normalising once. */
  lemma NormalizeIdempotent(g: string)
    ensures NormalizeBook(NormalizeBook(g)) == NormalizeBook(g)
  {
    var r := NormalizeBook(g);
    CollapseFixedPoint(r, IsSpace, ' ');
    TrimUnchanged(r);
  }

  predicate NotTab(c: char) { c != '\t' }

  /** `const [ref, textRaw] = line.split("\t")`: the text before the first tab, and
      the text between the first and the second tab (none when there is no tab). */
  function Fields(line: string): (r: (string, Option<string>))
    ensures '\t' !in r.0 && StartsWith(line, r.0)
    ensures r.1.None? <==> '\t' !in line
    ensures r.1.None? ==> r.0 == line
    ensures r.1.Some? ==>
              var t := r.1.value;
              && '\t' !in t && StartsWith(line, r.0 + "\t" + t)
              && (|r.0| + 1 + |t| == |line| || line[|r.0| + 1 + |t|] == '\t')
  {
    var e := Span(line, 0, NotTab);
    if e == |line| then
      assert line[..e] == line;
      (line, None)
    else
      var f := Span(line, e + 1, NotTab);
      var t := line[e + 1..f];
      assert line[..f] == line[..e] + "\t" + t;
      assert forall m | 0 <= m < |t| :: t[m] == line[e + 1 + m];
      (line[..e], Some(t))
  }

  /** Splitting `ref<TAB>text`, with or without a further tab and anything after it,
      gives back the reference and the text: text after a second tab is discarded. */
  lemma FieldsOf(ref: string, text: string, rest: Option<string>)
    requires '\t' !in ref && '\t' !in text
    ensures var line := if rest.None? then ref + "\t" + text else ref + "\t" + text + "\t" + rest.value;
            Fields(line) == (ref, Some(text))
  {
    var head := ref + "\t" + text;
    var line := if rest.None? then head else head + "\t" + rest.value;
    assert line[..|head|] == head;
    assert head[..|ref|] == ref && head[|ref|] == '\t' && head[|ref| + 1..] == text;
    FieldsAt(line, ref, text);
  }

  /** The fields of a line that starts with `ref`, a tab and `text`, followed by the end
      of the line or a tab. */
  lemma FieldsAt(line: string, ref: string, text: string)
    requires '\t' !in ref && '\t' !in text && |ref| + 1 + |text| <= |line|
    requires line[..|ref|] == ref && line[|ref|] == '\t' && line[|ref| + 1..|ref| + 1 + |text|] == text
    requires |ref| + 1 + |text| == |line| || line[|ref| + 1 + |text|] == '\t'
    ensures Fields(line) == (ref, Some(text))
  {
    assert forall m | 0 <= m < |ref| :: line[m] == ref[m];
    assert forall m | 0 <= m < |text| :: line[|ref| + 1 + m] == text[m];
    SpanIs(line, 0, NotTab, |ref|);
    SpanIs(line, |ref| + 1, NotTab, |ref| + 1 + |text|);
  }

  /** Why a line leaves the books as they are. */
  datatype SkipReason = Blank | MissingField | BadRef | UnknownBook

  /** What one line asks for: nothing, the text of one verse slot, or a lookup that
      finds an inherited property instead of a book, on which the script throws. */
  datatype Action = Skip(reason: SkipReason) | Put(book: nat, chap: nat, verse: nat, text: string) | Fault

  /** The properties every object inherits whose names the book pattern can match: the
      lookup `bookIndex[book]` finds a function for them, not null, and `books[bi]` is then
      undefined. */
  const Inherited: seq<string> :=
    ["constructor", "hasOwnProperty", "isPrototypeOf", "propertyIsEnumerable", "toLocaleString", "toString", "valueOf"]

  /** Whether `name` is one of `names`, looked up one entry at a time. */
  function Among(name: string, names: seq<string>): (b: bool)
    ensures b <==> name in names
  {
    if names == [] then false else names[0] == name || Among(name, names[1..])
  }

  /** Lines 35-44 of the loop body: the skip rules, then the book, chapter, verse and
      trimmed text of the line. */
  function Classify(line: string): (a: Action)
    ensures (a.Skip? && a.reason == Blank) <==> AllSpace(line)
    ensures a.Put? ==> a.book < 66 && '\t' in line
    ensures a.Put? ==> Trimmed(a.text)
  {
    if Trim(line) == [] then Skip(Blank) else ClassifyFields(Fields(line))
  }

  /** A line that is not blank, by its first two fields: a missing or empty field skips
      it, otherwise the reference decides. */
  function ClassifyFields(f: (string, Option<string>)): (a: Action)
    ensures a.Skip? ==> a.reason != Blank
    ensures a == Skip(MissingField) <==> f.0 == [] || f.1.None? || f.1.value == []
    ensures a.Put? ==> a.book < 66 && f.1.Some?
    ensures a.Put? ==> Trimmed(a.text)
  {
    if f.0 == [] || f.1.None? || f.1.value == [] then Skip(MissingField)
    else ClassifyRef(f.0, f.1.value)
  }

  /** Lines 38-44: a reference that fails the pattern or names an unknown book is
      skipped, an inherited property name is a fault; otherwise the book's position, the
      chapter, the verse and the trimmed text. */
  function ClassifyRef(ref: string, text: string): (a: Action)
    ensures a.Skip? ==> a.reason == BadRef || a.reason == UnknownBook
    ensures a.Put? ==> a.book < 66 && a.text == Trim(text)
  {
    LawPlace();
    match Match(IngestRef, ref)
    case None => Skip(BadRef)
    case Some(g) =>
      var book := NormalizeBook(g.book);
      if book !in BookIndex() then (if Among(book, Inherited) then Fault else Skip(UnknownBook))
      else Put(BookIndex()[book], NumeralValue(g.chap), NumeralValue(g.verse), Trim(text))
  }

  /** Which references are skipped, which are faults and which name a book: a put is for
      the canonical name the normalised book group spells. */
  lemma ClassifyRefCases(ref: string, text: string)
    ensures var a, m := ClassifyRef(ref, text), Match(IngestRef, ref);
            && (a.Skip? <==> m.None? || (NormalizeBook(m.value.book) !in BookIndex() && NormalizeBook(m.value.book) !in Inherited))
            && (a.Fault? <==> m.Some? && NormalizeBook(m.value.book) !in BookIndex() && NormalizeBook(m.value.book) in Inherited)
            && (a.Put? ==> a.book < |Canon| && Canon[a.book] == NormalizeBook(m.value.book))
  {
  }

  /** A line made of a reference, a tab, a text and possibly a second tab with more after
      it is classified by its reference and its text. */
  lemma ClassifySplit(ref: string, text: string, rest: Option<string>)
    requires ref != [] && !IsSpace(ref[0]) && '\t' !in ref && text != [] && '\t' !in text
    ensures var line := if rest.None? then ref + "\t" + text else ref + "\t" + text + "\t" + rest.value;
            Classify(line) == ClassifyRef(ref, text)
  {
    var line := if rest.None? then ref + "\t" + text else ref + "\t" + text + "\t" + rest.value;
    FieldsOf(ref, text, rest);
    assert line[0] == ref[0];
  }

  /** An input line in the expected form: a canonical name, chapter and verse as
      decimal numbers, a tab and the text. */
  function VerseLine(i: nat, chap: nat, verse: nat, text: string): string
    requires i < |Canon|
  {
    Canon[i] + " " + NatToString(chap) + ":" + NatToString(verse) + "\t" + text
  }

  /** The reference part of a line with a canonical-shaped name is matched whole. */
  lemma MatchTitleRef(book: string, chap: nat, verse: nat)
    requires Title(book)
    ensures Match(IngestRef, book + " " + NatToString(chap) + ":" + NatToString(verse))
            == Some(Groups(book, NatToString(chap), NatToString(verse)))
  {
    TitleBookGroup(IngestRef, book);
    TitleEnds(book);
    MatchFormatted(IngestRef, book, NatToString(chap), NatToString(verse));
  }

  /** A reference with a canonical-shaped name has no tab in it. */
  lemma TitleRefNoTab(book: string, chap: nat, verse: nat)
    requires Title(book)
    ensures '\t' !in book + " " + NatToString(chap) + ":" + NatToString(verse)
  {
    forall k | 0 <= k < |book| ensures book[k] != '\t' {
      assert TitleChar(book, k);
    }
    var c, v := NatToString(chap), NatToString(verse);
    assert forall k | 0 <= k < |c| :: IsDigit(c[k]);
    assert forall k | 0 <= k < |v| :: IsDigit(v[k]);
    assert '\t' !in book && '\t' !in c && '\t' !in v;
    assert book + " " + c + ":" + v == book + (" " + c + ":" + v);
  }

  /** A well-formed line whose name is a known book puts its trimmed text at that
      book, chapter and verse. */
  lemma ClassifyTitleLine(book: string, chap: nat, verse: nat, text: string)
    requires Title(book) && book in BookIndex() && text != [] && '\t' !in text
    ensures Classify(book + " " + NatToString(chap) + ":" + NatToString(verse) + "\t" + text)
            == Put(BookIndex()[book], chap, verse, Trim(text))
  {
    var ref := book + " " + NatToString(chap) + ":" + NatToString(verse);
    TitleEnds(book);
    TitleRefNoTab(book, chap, verse);
    assert ref[0] == book[0];
    ClassifySplit(ref, text, None);
    MatchTitleRef(book, chap, verse);
    NormalizeTitle(book);
  }

  /** A well-formed line puts its trimmed text at its book, chapter and verse. */
  lemma ClassifyVerseLine(i: nat, chap: nat, verse: nat, text: string)
    requires i < |Canon| && text != [] && '\t' !in text
    ensures Classify(VerseLine(i, chap, verse, text)) == Put(i, chap, verse, Trim(text))
  {
    CanonFacts();
    ClassifyTitleLine(Canon[i], chap, verse, text);
  }

  /** A second tab and whatever follows it make no difference to a line. */
  lemma ClassifyExtraField(ref: string, text: string, rest: string)
    requires ref != [] && !IsSpace(ref[0]) && '\t' !in ref && text != [] && '\t' !in text
    ensures Classify(ref + "\t" + text + "\t" + rest) == Classify(ref + "\t" + text)
  {
    ClassifySplit(ref, text, None);
    ClassifySplit(ref, text, Some(rest));
  }

  /** The inherited names are none of the canonical names. */
  lemma InheritedNotCanon(name: string)
    requires name in Inherited
    ensures name !in BookIndex()
  {
    InheritedNotOld(name);
    InheritedNotNew(name);
    assert name !in OldTestament && name !in NewTestament;
    forall b | b in BookIndex() ensures b != name {
      assert Canon[BookIndex()[b]] == b;
    }
  }

  lemma InheritedNotOld(name: string)
    requires name in Inherited
    ensures name !in Law && name !in History && name !in Wisdom
    ensures name !in MajorProphets && name !in MinorProphets
  {
  }

  lemma InheritedNotNew(name: string)
    requires name in Inherited
    ensures name !in GospelsAndActs && name !in PaulineEpistles && name !in GeneralEpistles
  {
  }

  /** The inherited names have the shape of a title. */
  lemma InheritedTitles()
    ensures forall k | 0 <= k < |Inherited| :: Title(Inherited[k])
  {
    InheritedTitles1();
    InheritedTitles2();
  }

  lemma InheritedTitles1()
    ensures forall k | 0 <= k < 4 :: Title(Inherited[k])
  {
  }

  lemma InheritedTitles2()
    ensures forall k | 4 <= k < 7 :: Title(Inherited[k])
  {
  }

  lemma InheritedTitle(name: string)
    requires name in Inherited
    ensures Title(name)
  {
    InheritedTitles();
  }

  /** A line naming an inherited property, such as `toString 1:1<TAB>text`, is a fault
      rather than a skipped unknown book. */
  lemma ClassifyInheritedLine(name: string, chap: nat, verse: nat, text: string)
    requires name in Inherited && text != [] && '\t' !in text
    ensures Classify(name + " " + NatToString(chap) + ":" + NatToString(verse) + "\t" + text) == Fault
  {
    InheritedTitle(name);
    var ref := name + " " + NatToString(chap) + ":" + NatToString(verse);
    TitleEnds(name);
    TitleRefNoTab(name, chap, verse);
    assert ref[0] == name[0];
    ClassifySplit(ref, text, None);
    ClassifyInheritedRef(name, chap, verse, text);
  }

  lemma ClassifyInheritedRef(name: string, chap: nat, verse: nat, text: string)
    requires name in Inherited
    ensures ClassifyRef(name + " " + NatToString(chap) + ":" + NatToString(verse), text) == Fault
  {
    InheritedTitle(name);
    MatchTitleRef(name, chap, verse);
    NormalizeTitle(name);
    InheritedNotCanon(name);
  }

  /* ---------------- one book ---------------- */

  /** The verse texts of one book: chapters of verse slots. */
  type Chapters = seq<seq<string>>

  /** `s` grown with `fill` up to length `n`; unchanged when already that long. */
  function PadTo<T>(s: seq<T>, n: nat, fill: T): (r: seq<T>)
    ensures |r| == Max(|s|, n)
    ensures r[..|s|] == s
    ensures forall k | |s| <= k < |r| :: r[k] == fill
  {
    if |s| < n then s + seq(n - |s|, _ => fill) else s
  }

  /** The chapters after lines 46-49 with chapter `chap` >= 1: the chapters grown with
      empty ones up to `chap`, chapter `chap` grown with empty slots up to `verse`, then
      slot `verse` set. With verse 0 the script sets a property "-1" that is not an
      array slot, so only the padding shows. */
  function Inserted(chapters: Chapters, chap: nat, verse: nat, text: string): Chapters
    requires chap >= 1
  {
    var padded := PadTo(chapters, chap, []);
    var c := PadTo(padded[chap - 1], verse, "");
    padded[chap - 1 := if verse >= 1 then c[verse - 1 := text] else c]
  }

  /** Chapter `k` of `chapters`, or no verses past the end. */
  function ChapterAt(chapters: Chapters, k: nat): seq<string> {
    if k < |chapters| then chapters[k] else []
  }

  /** Slot `j` of a chapter, or "" past the end. */
  function SlotAt(verses: seq<string>, j: nat): string {
    if j < |verses| then verses[j] else ""
  }

  /** Chapters are equal when they agree on the number of chapters, every chapter's
      length and every slot. */
  lemma SameView(a: Chapters, b: Chapters)
    requires |a| == |b|
    requires forall k: nat :: |ChapterAt(a, k)| == |ChapterAt(b, k)|
    requires forall k: nat, j: nat :: SlotAt(ChapterAt(a, k), j) == SlotAt(ChapterAt(b, k), j)
    ensures a == b
  {
    forall k | 0 <= k < |a| ensures a[k] == b[k] {
      assert |ChapterAt(a, k)| == |ChapterAt(b, k)|;
      forall j | 0 <= j < |a[k]| ensures a[k][j] == b[k][j] {
        assert SlotAt(ChapterAt(a, k), j) == SlotAt(ChapterAt(b, k), j);
      }
    }
  }

  /** What an insert does, slot by slot: the chapter count becomes max(old, chap), chapter
      `chap` becomes max(old, verse) long, slot `verse` of chapter `chap` holds the text,
      and every other chapter length and slot is as before (new ones empty, "" slots). */
  lemma InsertedView(chapters: Chapters, chap: nat, verse: nat, text: string)
    requires chap >= 1
    ensures var r := Inserted(chapters, chap, verse, text);
            && |r| == Max(|chapters|, chap)
            && (forall k: nat :: |ChapterAt(r, k)| ==
                  if k == chap - 1 then Max(|ChapterAt(chapters, k)|, verse) else |ChapterAt(chapters, k)|)
            && (forall k: nat, j: nat :: SlotAt(ChapterAt(r, k), j) ==
                  if k == chap - 1 && j == verse - 1 then text else SlotAt(ChapterAt(chapters, k), j))
  {
    var r := Inserted(chapters, chap, verse, text);
    var padded := PadTo(chapters, chap, []);
    assert forall k | 0 <= k < |chapters| :: padded[k] == padded[..|chapters|][k];
    var before := ChapterAt(chapters, chap - 1);
    assert padded[chap - 1] == before;
    var c := PadTo(before, verse, "");
    assert forall j | 0 <= j < |before| :: c[j] == c[..|before|][j];
    forall k: nat ensures ChapterAt(r, k) == if k == chap - 1 then (if verse >= 1 then c[verse - 1 := text] else c)
                                             else ChapterAt(chapters, k) {
    }
  }

  /** A later line with the same reference overwrites the earlier text. */
  lemma InsertedOverwrite(chapters: Chapters, chap: nat, verse: nat, t1: string, t2: string)
    requires chap >= 1 && verse >= 1
    ensures Inserted(Inserted(chapters, chap, verse, t1), chap, verse, t2) == Inserted(chapters, chap, verse, t2)
  {
    var once := Inserted(chapters, chap, verse, t1);
    InsertedView(chapters, chap, verse, t1);
    InsertedView(once, chap, verse, t2);
    InsertedView(chapters, chap, verse, t2);
    SameView(Inserted(once, chap, verse, t2), Inserted(chapters, chap, verse, t2));
  }

  /** Two inserts in either order give every chapter the same length. */
  lemma InsertedCommuteLengths(chapters: Chapters, c1: nat, v1: nat, t1: string, c2: nat, v2: nat, t2: string)
    requires c1 >= 1 && c2 >= 1
    ensures var a, b := Inserted(Inserted(chapters, c1, v1, t1), c2, v2, t2), Inserted(Inserted(chapters, c2, v2, t2), c1, v1, t1);
            |a| == |b| && forall k: nat :: |ChapterAt(a, k)| == |ChapterAt(b, k)|
  {
    var x1 := Inserted(chapters, c1, v1, t1);
    var x2 := Inserted(chapters, c2, v2, t2);
    InsertedView(chapters, c1, v1, t1);
    InsertedView(chapters, c2, v2, t2);
    InsertedView(x1, c2, v2, t2);
    InsertedView(x2, c1, v1, t1);
  }

  /** Two inserts into different slots, in either order, leave every slot the same. */
  lemma InsertedCommuteSlots(chapters: Chapters, c1: nat, v1: nat, t1: string, c2: nat, v2: nat, t2: string)
    requires c1 >= 1 && v1 >= 1 && c2 >= 1 && v2 >= 1 && (c1, v1) != (c2, v2)
    ensures var a, b := Inserted(Inserted(chapters, c1, v1, t1), c2, v2, t2), Inserted(Inserted(chapters, c2, v2, t2), c1, v1, t1);
            forall k: nat, j: nat :: SlotAt(ChapterAt(a, k), j) == SlotAt(ChapterAt(b, k), j)
  {
    var x1 := Inserted(chapters, c1, v1, t1);
    var x2 := Inserted(chapters, c2, v2, t2);
    InsertedView(chapters, c1, v1, t1);
    InsertedView(chapters, c2, v2, t2);
    InsertedView(x1, c2, v2, t2);
    InsertedView(x2, c1, v1, t1);
  }

  /** Lines for different verse slots commute: only a repeated reference makes the
      order of lines matter. */
  lemma InsertedCommute(chapters: Chapters, c1: nat, v1: nat, t1: string, c2: nat, v2: nat, t2: string)
    requires c1 >= 1 && v1 >= 1 && c2 >= 1 && v2 >= 1 && (c1, v1) != (c2, v2)
    ensures Inserted(Inserted(chapters, c1, v1, t1), c2, v2, t2) ==
            Inserted(Inserted(chapters, c2, v2, t2), c1, v1, t1)
  {
    InsertedCommuteLengths(chapters, c1, v1, t1, c2, v2, t2);
    InsertedCommuteSlots(chapters, c1, v1, t1, c2, v2, t2);
    SameView(Inserted(Inserted(chapters, c1, v1, t1), c2, v2, t2), Inserted(Inserted(chapters, c2, v2, t2), c1, v1, t1));
  }

  /** One entry of `books`: its name, abbreviation and slug are fixed at creation, and
      its chapters grow in place as lines arrive. */
  class Book {
    const name: string
    const abbr: string
    const slug: string
    var chapters: Chapters

    /** `{ name, abbr: name, slug: slug(name), chapters: [] }` */
    constructor (name: string)
      ensures this.name == name && abbr == name && slug == Slug(name) && chapters == []
    {
      this.name := name;
      abbr := name;
      slug := Slug(name);
      chapters := [];
    }

    /** Lines 46-49: push empty chapters up to `chap`, push "" into chapter `chap` up to
        `verse`, then store the text in slot `verse`. */
    method Put(chap: nat, verse: nat, text: string)
      requires chap >= 1
      modifies this
      ensures chapters == Inserted(old(chapters), chap, verse, text)
    {
      while |chapters| < chap
        invariant |old(chapters)| <= |chapters| <= Max(|old(chapters)|, chap)
        invariant chapters[..|old(chapters)|] == old(chapters)
        invariant forall k | |old(chapters)| <= k < |chapters| :: chapters[k] == []
        decreases chap - |chapters|
      {
        chapters := chapters + [[]];
      }
      assert chapters == PadTo(old(chapters), chap, []);
      var c := chapters[chap - 1];
      ghost var before := c;
      while |c| < verse
        invariant |before| <= |c| <= Max(|before|, verse)
        invariant c[..|before|] == before
        invariant forall j | |before| <= j < |c| :: c[j] == ""
        decreases verse - |c|
      {
        c := c + [""];
      }
      assert c == PadTo(before, verse, "");
      if verse >= 1 {
        c := c[verse - 1 := text];
      }
      chapters := chapters[chap - 1 := c];
    }
  }

  /* ---------------- the whole run ---------------- */

  /** How a run of the script ends: the chapters of the 66 books it writes out, or the
      index of the line that made it throw, by chapter 0 or by an inherited property
      name (then nothing is written). */
  datatype Outcome = Wrote(books: seq<Chapters>) | Threw(line: nat)

  /** The chapters of the 66 books before any line is read. */
  function Empty(): (s: seq<Chapters>)
    ensures |s| == 66 && forall i | 0 <= i < |s| :: s[i] == []
  {
    seq(66, _ => [])
  }

  /** An action the loop can carry out: a put names one of the 66 books. */
  predicate ValidAction(a: Action) { a.Put? ==> a.book < 66 }

  predicate ValidActions(actions: seq<Action>) {
    forall k | 0 <= k < |actions| :: ValidAction(actions[k])
  }

  /** One pass of the loop body, for the action of the line at index `at`. */
  function Apply(state: seq<Chapters>, a: Action, at: nat): (o: Outcome)
    requires |state| == 66 && ValidAction(a)
    ensures o.Wrote? ==> |o.books| == 66
    ensures o.Threw? <==> (a.Put? && a.chap == 0) || a.Fault?
    ensures o.Threw? ==> o.line == at
  {
    match a
    case Skip(_) => Wrote(state)
    case Fault => Threw(at)
    case Put(b, chap, verse, text) =>
      if chap == 0 then Threw(at)
      else Wrote(state[b := Inserted(state[b], chap, verse, text)])
  }

  /** The loop over the actions of all lines, from the empty books: always 66 books;
      a throw names one of the lines. */
  function Replay(actions: seq<Action>): (o: Outcome)
    requires ValidActions(actions)
    ensures o.Wrote? ==> |o.books| == 66
    ensures o.Threw? ==> o.line < |actions|
    decreases |actions|
  {
    if actions == [] then Wrote(Empty())
    else
      match Replay(actions[..|actions| - 1])
      case Threw(k) => Threw(k)
      case Wrote(s) => Apply(s, actions[|actions| - 1], |actions| - 1)
  }

  /** The action of every line. */
  function Actions(lines: seq<string>): (r: seq<Action>)
    ensures |r| == |lines| && ValidActions(r)
    ensures forall k | 0 <= k < |lines| :: r[k] == Classify(lines[k])
  {
    seq(|lines|, k requires 0 <= k < |lines| => Classify(lines[k]))
  }

  /** Lines 34-50: the whole loop over the lines. */
  function Run(lines: seq<string>): (o: Outcome)
    ensures o.Wrote? ==> |o.books| == 66
    ensures o.Threw? ==> o.line < |lines|
  {
    Replay(Actions(lines))
  }

  /** Appending an action runs one more pass of the loop body. */
  lemma ReplaySnoc(actions: seq<Action>, a: Action)
    requires ValidActions(actions) && ValidAction(a)
    ensures ValidActions(actions + [a])
    ensures Replay(actions + [a]) ==
            match Replay(actions)
            case Threw(k) => Threw(k)
            case Wrote(s) => Apply(s, a, |actions|)
  {
    assert (actions + [a])[..|actions|] == actions;
  }

  /** Appending a line appends its action. */
  lemma ActionsSnoc(lines: seq<string>, line: string)
    ensures Actions(lines + [line]) == Actions(lines) + [Classify(line)]
  {
  }

  /** A line that is skipped leaves every book as it was. */
  lemma SkippedLine(lines: seq<string>, line: string)
    requires Classify(line).Skip?
    ensures Run(lines + [line]) == Run(lines)
  {
    ActionsSnoc(lines, line);
    ReplaySnoc(Actions(lines), Classify(line));
  }

  /** Reading one more line applies its action to the books so far, unless the run
      has already thrown. */
  lemma RunSnoc(lines: seq<string>, line: string)
    ensures Run(lines + [line]) ==
            match Run(lines)
            case Threw(k) => Threw(k)
            case Wrote(s) => Apply(s, Classify(line), |lines|)
  {
    ActionsSnoc(lines, line);
    ReplaySnoc(Actions(lines), Classify(line));
  }

  /** A line puts its text in its own book and no other book changes. */
  lemma PutLine(lines: seq<string>, line: string)
    requires Run(lines).Wrote? && Classify(line).Put? && Classify(line).chap >= 1
    ensures var s, a := Run(lines).books, Classify(line);
            Run(lines + [line]) == Wrote(s[a.book := Inserted(s[a.book], a.chap, a.verse, a.text)])
  {
    ActionsSnoc(lines, line);
    ReplaySnoc(Actions(lines), Classify(line));
  }

  /** A line that is not blank but has no tab is skipped, and changes no book. */
  lemma NoTabLine(lines: seq<string>, line: string)
    requires !AllSpace(line) && '\t' !in line
    ensures Classify(line) == Skip(MissingField)
    ensures Run(lines + [line]) == Run(lines)
  {
    SkippedLine(lines, line);
  }

  /** A line that is not blank but whose reference or text field is empty is skipped,
      and changes no book. */
  lemma EmptyFieldLine(lines: seq<string>, ref: string, text: string, rest: Option<string>)
    requires '\t' !in ref && '\t' !in text && (ref == [] || text == [])
    requires var line := if rest.None? then ref + "\t" + text else ref + "\t" + text + "\t" + rest.value;
             !AllSpace(line)
    ensures var line := if rest.None? then ref + "\t" + text else ref + "\t" + text + "\t" + rest.value;
            Classify(line) == Skip(MissingField) && Run(lines + [line]) == Run(lines)
  {
    var line := if rest.None? then ref + "\t" + text else ref + "\t" + text + "\t" + rest.value;
    FieldsOf(ref, text, rest);
    SkippedLine(lines, line);
  }

  /** A line with chapter 0, or naming an inherited property, makes the run throw at
      that line. */
  lemma ThrowingLine(lines: seq<string>, line: string)
    requires Run(lines).Wrote? && ((Classify(line).Put? && Classify(line).chap == 0) || Classify(line).Fault?)
    ensures Run(lines + [line]) == Threw(|lines|)
  {
    ActionsSnoc(lines, line);
    ReplaySnoc(Actions(lines), Classify(line));
  }

  /** Once the loop has thrown, later actions change nothing. */
  lemma {:induction false} ReplayThrewStays(actions: seq<Action>, n: nat)
    requires ValidActions(actions) && n <= |actions| && Replay(actions[..n]).Threw?
    ensures Replay(actions) == Replay(actions[..n])
    decreases |actions| - n
  {
    if n < |actions| {
      ReplaySnoc(actions[..n], actions[n]);
      assert actions[..n + 1] == actions[..n] + [actions[n]];
      ReplayThrewStays(actions, n + 1);
    } else {
      assert actions[..n] == actions;
    }
  }

  /** Once the script has thrown, later lines change nothing. */
  lemma ThrewStays(lines: seq<string>, n: nat)
    requires n <= |lines| && Run(lines[..n]).Threw?
    ensures Run(lines) == Run(lines[..n])
  {
    assert Actions(lines[..n]) == Actions(lines)[..n];
    ReplayThrewStays(Actions(lines), n);
  }

  /** Two puts to the same slot: the later text wins. */
  lemma ReplayOverwrite(actions: seq<Action>, a1: Action, a2: Action)
    requires ValidActions(actions) && Replay(actions).Wrote?
    requires a1.Put? && a2.Put? && a1.book < 66 && a1.chap >= 1 && a1.verse >= 1
    requires a1.book == a2.book && a1.chap == a2.chap && a1.verse == a2.verse
    ensures ValidActions(actions + [a1, a2]) && ValidActions(actions + [a2])
    ensures Replay(actions + [a1, a2]) == Replay(actions + [a2])
  {
    ReplaySnoc(actions, a1);
    ReplaySnoc(actions + [a1], a2);
    ReplaySnoc(actions, a2);
    assert actions + [a1, a2] == (actions + [a1]) + [a2];
    InsertedOverwrite(Replay(actions).books[a1.book], a1.chap, a1.verse, a1.text, a2.text);
  }

  /** Two lines with the same reference: the later text wins. */
  lemma RepeatedReference(lines: seq<string>, l1: string, l2: string)
    requires Run(lines).Wrote?
    requires Classify(l1).Put? && Classify(l2).Put? && Classify(l1).chap >= 1 && Classify(l1).verse >= 1
    requires Classify(l1).book == Classify(l2).book && Classify(l1).chap == Classify(l2).chap
    requires Classify(l1).verse == Classify(l2).verse
    ensures Run(lines + [l1, l2]) == Run(lines + [l2])
  {
    ActionsSnoc(lines, l1);
    ActionsSnoc(lines + [l1], l2);
    ActionsSnoc(lines, l2);
    assert lines + [l1, l2] == (lines + [l1]) + [l2];
    assert Actions(lines) + [Classify(l1), Classify(l2)] == Actions(lines) + [Classify(l1)] + [Classify(l2)];
    ReplayOverwrite(Actions(lines), Classify(l1), Classify(l2));
  }

  /** Lines `Genesis 1:1` and `Genesis 1:3` give a first chapter of three slots with ""
      in the middle. */
  lemma GapExample(t1: string, t3: string, l1: string, l3: string)
    requires t1 != [] && '\t' !in t1 && t3 != [] && '\t' !in t3
    requires l1 == VerseLine(0, 1, 1, t1) && l3 == VerseLine(0, 1, 3, t3)
    ensures Run([l1, l3]) == Wrote(Empty()[0 := [[Trim(t1), "", Trim(t3)]]])
  {
    LawPlace();
    ClassifyVerseLine(0, 1, 1, t1);
    ClassifyVerseLine(0, 1, 3, t3);
    ActionsPair(l1, l3);
    GapReplay(Trim(t1), Trim(t3));
  }

  /** The actions of two lines. */
  lemma ActionsPair(l1: string, l2: string)
    ensures Run([l1, l2]) == Replay([Classify(l1), Classify(l2)])
  {
    assert Actions([l1, l2]) == [Classify(l1), Classify(l2)];
  }

  /** Puts of verses 1 and 3 of chapter 1 of the first book. */
  lemma GapReplay(x: string, y: string)
    ensures ValidActions([Put(0, 1, 1, x), Put(0, 1, 3, y)])
    ensures Replay([Put(0, 1, 1, x), Put(0, 1, 3, y)]) == Wrote(Empty()[0 := [[x, "", y]]])
  {
    var a1, a3 := Put(0, 1, 1, x), Put(0, 1, 3, y);
    ReplaySnoc([], a1);
    assert [] + [a1] == [a1];
    ReplaySnoc([a1], a3);
    assert [a1] + [a3] == [a1, a3];
    var s1 := Empty()[0 := Inserted([], 1, 1, x)];
    InsertedGap(x, y);
    assert s1[0 := Inserted(s1[0], 1, 3, y)] == Empty()[0 := [[x, "", y]]];
  }

  /** Verse 1 then verse 3 of chapter 1 of an empty book: slot 2 is "". */
  lemma InsertedGap(x: string, y: string)
    ensures Inserted(Inserted([], 1, 1, x), 1, 3, y) == [[x, "", y]]
  {
    var once := Inserted([], 1, 1, x);
    InsertedView([], 1, 1, x);
    InsertedView(once, 1, 3, y);
    var r := Inserted(once, 1, 3, y);
    assert |ChapterAt(r, 0)| == 3;
    assert SlotAt(ChapterAt(r, 0), 0) == x;
    assert SlotAt(ChapterAt(r, 0), 1) == "";
    assert SlotAt(ChapterAt(r, 0), 2) == y;
    assert r[0] == [x, "", y];
  }

  /** The chapters held by a sequence of books. */
  function ChaptersOf(books: seq<Book>): (s: seq<Chapters>)
    reads set b | b in books
    ensures |s| == |books| && forall i | 0 <= i < |books| :: s[i] == books[i].chapters
  {
    if books == [] then [] else [books[0].chapters] + ChaptersOf(books[1..])
  }

  lemma AppendDistinct(books: seq<Book>, b: Book)
    requires forall j, k | 0 <= j < k < |books| :: books[j] != books[k]
    requires b !in books
    ensures forall j, k | 0 <= j < k < |books| + 1 :: (books + [b])[j] != (books + [b])[k]
  {
  }

  /** `names.map(...)`: one new book per name, in order, each with no chapters. */
  method MakeBooks(names: seq<string>) returns (books: seq<Book>)
    ensures |books| == |names|
    ensures forall i | 0 <= i < |names| ::
              books[i].name == names[i] && books[i].abbr == names[i] && books[i].slug == Slug(names[i])
    ensures forall j | 0 <= j < |books| :: fresh(books[j]) && books[j].chapters == []
    ensures forall j, k | 0 <= j < k < |books| :: books[j] != books[k]
  {
    books := [];
    for i := 0 to |names|
      invariant |books| == i
      invariant forall j | 0 <= j < i ::
                  books[j].name == names[j] && books[j].abbr == names[j] && books[j].slug == Slug(names[j])
      invariant forall j | 0 <= j < i :: books[j].chapters == [] && fresh(books[j])
      invariant forall j, k | 0 <= j < k < i :: books[j] != books[k]
    {
      var b := new Book(names[i]);
      assert b !in books;
      AppendDistinct(books, b);
      assert forall j | 0 <= j < i :: (books + [b])[j] == books[j];
      books := books + [b];
    }
  }

  /** Lines 31-32: the 66 books in canon order, each new and with no chapters. */
  method NewBooks() returns (books: seq<Book>)
    ensures |books| == |Canon|
    ensures forall i | 0 <= i < |Canon| ::
              books[i].name == Canon[i] && books[i].abbr == Canon[i] && books[i].slug == Slug(Canon[i])
    ensures forall j | 0 <= j < |books| :: fresh(books[j])
    ensures forall j, k | 0 <= j < k < |books| :: books[j] != books[k]
    ensures forall j | 0 <= j < |books| :: books[j].chapters == []
  {
    books := MakeBooks(Canon);
  }

  /** Book `i` of `books` takes one verse in place; the other books are distinct objects
      and keep their chapters. */
  method PutInto(books: seq<Book>, i: nat, chap: nat, verse: nat, text: string)
    requires i < |books| && chap >= 1
    requires forall j, k | 0 <= j < k < |books| :: books[j] != books[k]
    modifies books[i]
    ensures ChaptersOf(books) == old(ChaptersOf(books))[i := Inserted(old(books[i].chapters), chap, verse, text)]
  {
    books[i].Put(chap, verse, text);
    assert forall j | 0 <= j < |books| && j != i :: books[j] != books[i];
  }

  /** Before the first line, the books hold the empty chapters. */
  lemma NoLinesYet(books: seq<Book>, lines: seq<string>)
    requires |books| == 66 && forall j | 0 <= j < |books| :: books[j].chapters == []
    ensures Run(lines[..0]) == Wrote(ChaptersOf(books))
  {
    assert Actions(lines[..0]) == [];
    EmptyBooks(books);
  }

  /** Books with no chapters hold the empty chapters. */
  lemma EmptyBooks(books: seq<Book>)
    requires |books| == 66 && forall j | 0 <= j < |books| :: books[j].chapters == []
    ensures ChaptersOf(books) == Empty()
  {
  }

  lemma PrefixSnoc(lines: seq<string>, n: nat)
    requires n < |lines|
    ensures lines[..n + 1] == lines[..n] + [lines[n]]
  {
  }

  /** One pass of the loop body (lines 35-49) on line number `at`, in place on the
      books: the books end as `Apply` says, and the result tells whether the line made
      the script throw. */
  method ReadLine(books: seq<Book>, line: string, at: nat) returns (threw: bool)
    requires |books| == 66
    requires forall j, k | 0 <= j < k < |books| :: books[j] != books[k]
    modifies set b | b in books
    ensures var o := Apply(old(ChaptersOf(books)), Classify(line), at);
            threw == o.Threw? && (o.Wrote? ==> o.books == ChaptersOf(books))
  {
    var a := Classify(line);
    threw := false;
    if a.Fault? || (a.Put? && a.chap == 0) {
      threw := true;
    } else if a.Put? {
      PutInto(books, a.book, a.chap, a.verse, a.text);
    }
  }

  /** The script: create the 66 books in canon order, then read the lines in order.
      Returns the books and, when a line made the script throw, the index of that line. The chapters are those `Run` computes. */
  method Ingest(lines: seq<string>) returns (books: seq<Book>, threw: Option<nat>)
    ensures |books| == |Canon|
    ensures forall i | 0 <= i < |Canon| ::
              books[i].name == Canon[i] && books[i].abbr == Canon[i] && books[i].slug == Slug(Canon[i])
    ensures forall j | 0 <= j < |books| :: fresh(books[j])
    ensures forall j, k | 0 <= j < k < |books| :: books[j] != books[k]
    ensures threw.None? ==> Run(lines) == Wrote(ChaptersOf(books))
    ensures threw.Some? ==> Run(lines) == Threw(threw.value)
  {
    books := NewBooks();
    LawPlace();
    NoLinesYet(books, lines);
    for n := 0 to |lines|
      invariant forall j, k | 0 <= j < k < |books| :: books[j] != books[k]
      invariant Run(lines[..n]) == Wrote(ChaptersOf(books))
    {
      PrefixSnoc(lines, n);
      RunSnoc(lines[..n], lines[n]);
      var stop := ReadLine(books, lines[n], n);
      if stop {
        ThrewStays(lines, n + 1);
        threw := Some(n);
        return;
      }
    }
    assert lines[..|lines|] == lines;
    threw := None;
  }
}
