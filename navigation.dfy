// The reference helpers of the reader's browser script: a reference becomes the URL
// path `/slug/chapter/verse/` and is read back from it, a book is located in canon
// order, and the previous/next buttons build an ordered list of candidate references.
// The browser-side pattern is `^\s*([1-3]?\s?[A-Za-z .]+)\s+(\d+):(\d+)\s*$`.
module Navigation {
  import opened Text
  import opened Slugs
  import opened CanonOrder
  import opened RefPattern

  /* ---------------- Array.prototype.findIndex / find ---------------- */

  /** The first index at or after `from` whose element satisfies `p`, or -1. */
  function FindFrom<T>(xs: seq<T>, p: T -> bool, from: nat): (r: int)
    requires from <= |xs|
    ensures r == -1 || from <= r < |xs|
    ensures r >= 0 ==> p(xs[r])
    ensures forall k | from <= k < |xs| && (r == -1 || k < r) :: !p(xs[k])
    decreases |xs| - from
  {
    if from == |xs| then -1
    else if p(xs[from]) then from
    else FindFrom(xs, p, from + 1)
  }

  /** `xs.findIndex(p)`: the first index whose element satisfies `p`, or -1. */
  function FindIndex<T>(xs: seq<T>, p: T -> bool): (r: int)
    ensures -1 <= r < |xs|
    ensures r >= 0 ==> p(xs[r])
    ensures forall k | 0 <= k < |xs| && (r == -1 || k < r) :: !p(xs[k])
  {
    FindFrom(xs, p, 0)
  }

  /* ---------------- canonIndex ---------------- */

  /** `b.toLowerCase() === book.toLowerCase()` */
  predicate SameName(b: string, book: string) {
    Lower(b) == Lower(book)
  }

  /** `b.toLowerCase().startsWith(book.toLowerCase())` */
  predicate NamePrefix(b: string, book: string) {
    StartsWith(Lower(b), Lower(book))
  }

  /** `canonIndex(book)`: a case-insensitive exact match wins; otherwise the first
      book whose lower-cased name starts with the lower-cased input; -1 when neither. */
  function CanonIndex(book: string): (r: int)
    ensures -1 <= r < |Canon|
    ensures (exists k | 0 <= k < |Canon| :: SameName(Canon[k], book)) ==>
              r >= 0 && SameName(Canon[r], book)
    ensures (forall k | 0 <= k < |Canon| :: !SameName(Canon[k], book)) ==>
              && (r >= 0 ==> NamePrefix(Canon[r], book))
              && (forall k | 0 <= k < |Canon| && (r == -1 || k < r) :: !NamePrefix(Canon[k], book))
    ensures r == -1 <==> forall k | 0 <= k < |Canon| :: !NamePrefix(Canon[k], book)
  {
    var idx := FindIndex(Canon, b => SameName(b, book));
    if idx >= 0 then
      assert NamePrefix(Canon[idx], book);
      idx
    else
      FindIndex(Canon, b => NamePrefix(b, book))
  }

  /** A canonical name, in any letter case, is found at its own position. */
  lemma CanonIndexOfName(book: string, i: nat)
    requires i < |Canon| && SameName(Canon[i], book)
    ensures CanonIndex(book) == i
  {
    CanonFacts();
    Distinct();
  }

  /** On this canon the exact-match pass never changes the answer: the result is
      always the first book whose lower-cased name starts with the input. */
  lemma CanonIndexFirstPrefix(book: string)
    ensures var r := CanonIndex(book);
            r >= 0 ==> NamePrefix(Canon[r], book) && forall k | 0 <= k < r :: !NamePrefix(Canon[k], book)
  {
    var r := CanonIndex(book);
    if r >= 0 && exists k | 0 <= k < |Canon| :: SameName(Canon[k], book) {
      CanonFacts();
      PrefixFree();
      assert Lower(book) == Lower(Canon[r]);
      forall k | 0 <= k < r ensures !NamePrefix(Canon[k], book) {
        assert !StartsWith(Lower(Canon[k]), Lower(Canon[r]));
      }
    }
  }

  /* ---------------- parseRef and the template-literal references ---------------- */

  /** The object `{ book, chap, verse }` that `parseRef` returns. */
  datatype Ref = Ref(book: string, chap: nat, verse: nat)

  /** `parseRef(ref)`: none when the pattern does not match; otherwise the trimmed
      book group and the base-10 values of the two digit groups. */
  function ParseRef(ref: string): (r: Option<Ref>)
    ensures r.None? <==> forall a: nat, p: nat :: !MatchesAt(BrowserRef, ref, a, p)
    ensures r.Some? ==> Trimmed(r.value.book)
  {
    match Match(BrowserRef, ref)
    case None => None
    case Some(g) => Some(Ref(Trim(g.book), NumeralValue(g.chap), NumeralValue(g.verse)))
  }

  /** The template literal `${book} ${chap}:${verse}`. */
  function FormatRef(book: string, chap: int, verse: int): string {
    book + " " + IntToString(chap) + ":" + IntToString(verse)
  }

  /** A formatted reference parses back to its parts. */
  lemma ParseFormatted(book: string, chap: nat, verse: nat)
    requires BookGroup(BrowserRef, book) && !IsSpace(book[0]) && !IsSpace(book[|book| - 1])
    ensures ParseRef(FormatRef(book, chap, verse)) == Some(Ref(book, chap, verse))
  {
    MatchFormatted(BrowserRef, book, NatToString(chap), NatToString(verse));
    TrimUnchanged(book);
  }

  /** The same for a canonical name. */
  lemma ParseFormattedCanon(i: nat, chap: nat, verse: nat)
    requires i < |Canon|
    ensures ParseRef(FormatRef(Canon[i], chap, verse)) == Some(Ref(Canon[i], chap, verse))
  {
    CanonFacts();
    ParseFormattedTitle(Canon[i], chap, verse);
  }

  lemma ParseFormattedTitle(book: string, chap: nat, verse: nat)
    requires Title(book)
    ensures ParseRef(FormatRef(book, chap, verse)) == Some(Ref(book, chap, verse))
  {
    TitleBookGroup(BrowserRef, book);
    TitleEnds(book);
    ParseFormatted(book, chap, verse);
  }

  /* ---------------- URL paths ---------------- */

  /** Where the piece of `path` that ends at `e` starts: just after the last slash
      before `e`, or at 0. */
  function PieceStart(path: string, e: nat): (b: nat)
    requires e <= |path|
    ensures b <= e
    ensures forall k | b <= k < e :: path[k] != '/'
    ensures b == 0 || path[b - 1] == '/'
    decreases e
  {
    if e > 0 && path[e - 1] != '/' then PieceStart(path, e - 1) else e
  }

  lemma {:induction false} PieceStartIs(path: string, e: nat, b: nat)
    requires b <= e <= |path|
    requires forall k | b <= k < e :: path[k] != '/'
    requires b == 0 || path[b - 1] == '/'
    ensures PieceStart(path, e) == b
    decreases e
  {
    if b < e {
      PieceStartIs(path, e - 1, b);
    }
  }

  /** `pathname.split("/").filter(Boolean)`: the non-empty pieces between slashes,
      read from the right. */
  function Segments(path: string): (parts: seq<string>)
    ensures forall k | 0 <= k < |parts| :: parts[k] != [] && '/' !in parts[k]
    decreases |path|
  {
    if path == [] then []
    else if path[|path| - 1] == '/' then Segments(path[..|path| - 1])
    else
      var b := PieceStart(path, |path|);
      assert forall m | 0 <= m < |path| - b :: path[b..][m] != '/';
      Segments(path[..b]) + [path[b..]]
  }

  /** A trailing slash adds no segment. */
  lemma SegmentsSlash(x: string)
    ensures Segments(x + "/") == Segments(x)
  {
    assert (x + "/")[..|x|] == x;
  }

  /** A slash-free, non-empty piece after a slash (or at the start) is one more segment. */
  lemma SegmentsPiece(x: string, w: string)
    requires x == [] || x[|x| - 1] == '/'
    requires w != [] && '/' !in w
    ensures Segments(x + w) == Segments(x) + [w]
  {
    var path := x + w;
    PieceStartIs(path, |path|, |x|);
    assert path[..|x|] == x && path[|x|..] == w;
  }

  /** The path `/p1/p2/…/pn/`. */
  function PathOf(parts: seq<string>): (path: string)
    ensures path != [] && path[|path| - 1] == '/'
  {
    if parts == [] then "/" else PathOf(parts[..|parts| - 1]) + parts[|parts| - 1] + "/"
  }

  /** Splitting a path built from slash-free, non-empty pieces gives the pieces back. */
  lemma {:induction false} SegmentsOfPath(parts: seq<string>)
    requires forall k | 0 <= k < |parts| :: parts[k] != [] && '/' !in parts[k]
    ensures Segments(PathOf(parts)) == parts
  {
    if parts == [] {
      SegmentsSlash([]);
    } else {
      var init, last := parts[..|parts| - 1], parts[|parts| - 1];
      SegmentsOfPath(init);
      SegmentsSlash(PathOf(init) + last);
      SegmentsPiece(PathOf(init), last);
      assert init + [last] == parts;
    }
  }

  /** The path `refToPath` writes, split back into its segments; an empty slug
      leaves no segment of its own. */
  lemma PathSegments(slug: string, chap: string, verse: string)
    requires SlugShaped(slug) && IsNumeral(chap) && IsNumeral(verse)
    ensures Segments("/" + slug + "/" + chap + "/" + verse + "/") ==
            (if slug == [] then [] else [slug]) + [chap, verse]
  {
    assert '/' !in chap && '/' !in verse;
    var a1 := "/" + slug;
    var a2 := a1 + "/";
    var a4 := a2 + chap + "/";
    SegmentsSlash(a4 + verse);
    SegmentsPiece(a4, verse);
    SegmentsSlash(a2 + chap);
    SegmentsPiece(a2, chap);
    SegmentsSlash(a1);
    if slug == [] {
      assert a1 == [] + "/";
      SegmentsSlash([]);
    } else {
      assert '/' !in slug;
      SegmentsPiece("/", slug);
      assert Segments("/") == [] by {
        SegmentsSlash([]);
        assert [] + "/" == "/";
      }
    }
  }

  /** `refToPath(ref)`: "/" when the reference does not match; otherwise a path whose
      segments are the slug of the trimmed book group (left out when empty) and the
      chapter and verse digit strings copied verbatim. */
  function RefToPath(ref: string): (path: string)
    ensures Match(BrowserRef, ref).None? ==> path == "/"
    ensures Match(BrowserRef, ref).Some? ==>
              var g := Match(BrowserRef, ref).value;
              var slug := Slug(Trim(g.book));
              SlugShaped(slug) && Segments(path) == (if slug == [] then [] else [slug]) + [g.chap, g.verse]
  {
    match Match(BrowserRef, ref)
    case None => "/"
    case Some(g) =>
      var slug := Slug(Trim(g.book));
      PathSegments(slug, g.chap, g.verse);
      "/" + slug + "/" + g.chap + "/" + g.verse + "/"
  }

  /* ---------------- slugToBook ---------------- */

  /** `slug.replace(/-/g, " ")` */
  function Unhyphenate(s: string): (r: string)
    ensures |r| == |s|
    ensures forall k | 0 <= k < |r| :: r[k] != '-'
  {
    seq(|s|, k requires 0 <= k < |s| => if s[k] == '-' then ' ' else s[k])
  }

  /** What `slugToBook` looks for: the slug with hyphens as spaces, trimmed, lower-cased. */
  function SlugTarget(slug: string): string {
    Lower(Trim(Unhyphenate(slug)))
  }

  /** How `slugToBook` folds a canonical name: lower-cased, whitespace runs as one space. */
  function Folded(b: string): string {
    CollapseSpaces(Lower(b))
  }

  /** The test `slugToBook` applies to each canonical name. */
  predicate Fits(b: string, target: string) {
    StartsWith(Folded(b), target)
  }

  /** Book `i` is the first in canonical order that the target fits. */
  predicate FirstFit(i: nat, target: string) {
    i < |Canon| && Fits(Canon[i], target) && forall k | 0 <= k < i :: !Fits(Canon[k], target)
  }

  /** `slugToBook(slug)`: the first canonical name whose folded form starts with the
      target, or none when no name does. */
  function SlugToBook(slug: string): (r: Option<string>)
    ensures r.Some? ==> r.value in Canon && Fits(r.value, SlugTarget(slug))
    ensures r.None? <==> forall k | 0 <= k < |Canon| :: !Fits(Canon[k], SlugTarget(slug))
    ensures r.Some? ==> exists i | 0 <= i < |Canon| :: Canon[i] == r.value && FirstFit(i, SlugTarget(slug))
  {
    var target := SlugTarget(slug);
    var i := FindIndex(Canon, b => Fits(b, target));
    FindFit(target, i);
    if i < 0 then None else Some(Canon[i])
  }

  /** What the search in `slugToBook` finds: the first book the target fits, or -1
      when it fits none. */
  lemma FindFit(target: string, i: int)
    requires i == FindIndex(Canon, b => Fits(b, target))
    ensures i < 0 <==> forall k | 0 <= k < |Canon| :: !Fits(Canon[k], target)
    ensures i >= 0 ==> FirstFit(i, target)
  {
  }

  /** A slug that several names fit gives the first of them in canonical order: `jo`
      fits Joshua, Job, Joel, Jonah and John, and gives Joshua. */
  lemma SlugToBookFirst(slug: string)
    requires slug == "jo"
    ensures SlugToBook(slug) == Some("Joshua")
  {
    JoTarget(slug);
    JoFirstFit();
    LawPlace();
    HistoryPlace();
    FirstFitUnique(SlugTarget(slug));
  }

  /** At most one book is the first that a target fits. */
  lemma FirstFitUnique(target: string)
    ensures forall i, j | FirstFit(i, target) && FirstFit(j, target) :: i == j
  {
  }

  lemma JoTarget(slug: string)
    requires slug == "jo"
    ensures SlugTarget(slug) == "jo"
  {
    calc {
      SlugTarget(slug);
      { assert Unhyphenate(slug) == slug; }
      Lower(Trim(slug));
      { TrimUnchanged(slug); }
      Lower(slug);
      { assert forall k | 0 <= k < 2 :: Lower(slug)[k] == slug[k]; }
      "jo";
    }
  }

  lemma JoFirstFit()
    ensures FirstFit(5, "jo") && Canon[5] == "Joshua"
  {
    JoshuaFits();
    LawNotJo();
  }

  lemma JoshuaFits()
    ensures |Canon| == 66 && Canon[5] == "Joshua" && Fits(Canon[5], "jo")
  {
    HistoryPlace();
    FoldedPrefix(Canon[5], 2);
    assert Lower(Canon[5])[..2] == "jo";
  }

  lemma LawNotJo()
    ensures |Canon| == 66 && forall k | 0 <= k < 5 :: !Fits(Canon[k], "jo")
  {
    LawPlace();
    forall k | 0 <= k < 5 ensures !Fits(Canon[k], "jo") {
      assert Law[k][0] in "GELND";
      NotInitial(Canon[k], "jo");
    }
  }

  /** A name whose first letter is not the target's is not fitted by it. */
  lemma NotInitial(b: string, target: string)
    requires b != [] && target != [] && IsUpper(b[0]) && LowerChar(b[0]) != target[0]
    ensures !Fits(b, target)
  {
    FoldedPrefix(b, 1);
    var f := Folded(b);
    assert f[0] == f[..1][0] == Lower(b)[0];
  }

  /** Folding leaves a first stretch without whitespace as lower-casing left it. */
  lemma FoldedPrefix(b: string, n: nat)
    requires n <= |b| && forall k | 0 <= k < n :: !IsSpace(Lower(b)[k])
    ensures |Folded(b)| >= n && Folded(b)[..n] == Lower(b)[..n]
  {
    var l := Lower(b);
    var x, y := l[..n], l[n..];
    assert l == x + y;
    CollapseAppend(x, y, false, IsSpace, ' ');
    CollapsePlain(x, false, IsSpace, ' ');
  }

  /** A canonical name is its own folded form. */
  lemma FoldedTitle(t: string)
    requires Title(t)
    ensures Folded(t) == Lower(t)
  {
    var l := Lower(t);
    forall k | 0 <= k < |l|
      ensures IsSpace(l[k]) ==> l[k] == ' '
      ensures k < |l| - 1 ==> !(IsSpace(l[k]) && IsSpace(l[k + 1]))
    {
      assert TitleChar(t, k);
      if k < |l| - 1 {
        assert TitleChar(t, k + 1);
      }
    }
    CollapseFixedPoint(l, IsSpace, ' ');
  }

  /** The target read back from the slug of a canonical name is its lower-cased name. */
  lemma SlugTargetOfCanon(t: string)
    requires Title(t)
    ensures SlugTarget(Slug(t)) == Lower(t)
  {
    TitleWords(t);
    SlugOfWords(t);
    var l := Lower(t);
    forall k | 0 <= k < |t| ensures Unhyphenate(HyphenLower(t))[k] == l[k] {
      assert TitleChar(t, k);
    }
    assert Unhyphenate(HyphenLower(t)) == l;
    assert TitleChar(t, 0) && TitleChar(t, |t| - 1);
    TrimUnchanged(l);
    LowerIdempotent(t);
  }

  /** The slug of every canonical name leads back to that name: the round trip the
      page relies on when it writes a reference into the URL and reads it back. */
  lemma SlugToBookOfSlug(i: nat)
    requires i < |Canon|
    ensures SlugToBook(Slug(Canon[i])) == Some(Canon[i])
  {
    LawPlace();
    var n := Canon[i];
    CanonFacts();
    SlugTargetOfCanon(n);
    OnlyOwnFits(i);
    var r := SlugToBook(Slug(n));
    var k :| 0 <= k < |Canon| && Canon[k] == r.value;
  }

  /** The lower-cased name of book `i` is fitted by that book and by no other. */
  lemma OnlyOwnFits(i: nat)
    requires i < 66
    ensures |Canon| == 66 && Fits(Canon[i], Lower(Canon[i]))
    ensures forall k | 0 <= k < 66 && Fits(Canon[k], Lower(Canon[i])) :: k == i
  {
    CanonFacts();
    PrefixFree();
    forall k | 0 <= k < 66 ensures Folded(Canon[k]) == Lower(Canon[k]) {
      FoldedTitle(Canon[k]);
    }
    var l := Lower(Canon[i]);
    assert l[..|l|] == l;
  }

  /** The matcher is rough: a slug made only of hyphens and whitespace gives the first
      book, since every name starts with the empty target. */
  lemma SlugToBookBlank(slug: string)
    requires forall k | 0 <= k < |slug| :: slug[k] == '-' || IsSpace(slug[k])
    ensures SlugToBook(slug) == Some(Canon[0])
  {
    CanonFacts();
    var u := Unhyphenate(slug);
    assert AllSpace(u) by {
      forall k | 0 <= k < |u| ensures IsSpace(u[k]) {
        assert slug[k] == '-' || IsSpace(slug[k]);
      }
    }
    assert SlugTarget(slug) == [];
    assert StartsWith(Folded(Canon[0]), SlugTarget(slug));
  }

  /* ---------------- pathToRef, path branch ---------------- */

  /** The reference shown when the URL names none. */
  const DefaultRef: string := "John 1:1"

  /** `Number(s)` is truthy, for a string of decimal digits: its value is not zero. */
  predicate NumberTruthy(s: string) {
    IsNumeral(s) && NumeralValue(s) != 0
  }

  /** The path branch of `pathToRef`: three or more segments whose second and third
      are non-zero numbers give `book chap:verse`, the book read through `slugToBook`
      (or the raw first segment when no name fits); anything else gives the default. */
  function PathToRef(path: string): (ref: string)
    ensures |Segments(path)| < 3 ==> ref == DefaultRef
  {
    var parts := Segments(path);
    if |parts| >= 3 then
      var book := match SlugToBook(parts[0]) case Some(b) => b case None => parts[0];
      if NumberTruthy(parts[1]) && NumberTruthy(parts[2]) then book + " " + parts[1] + ":" + parts[2]
      else DefaultRef
    else DefaultRef
  }

  /** The path written for a formatted reference: the book's slug, then the chapter
      and verse as JavaScript prints them. */
  lemma RefToPathFormatted(book: string, chap: nat, verse: nat)
    requires BookGroup(BrowserRef, book) && !IsSpace(book[0]) && !IsSpace(book[|book| - 1])
    ensures RefToPath(FormatRef(book, chap, verse)) ==
            "/" + Slug(book) + "/" + NatToString(chap) + "/" + NatToString(verse) + "/"
  {
    MatchFormatted(BrowserRef, book, NatToString(chap), NatToString(verse));
    TrimUnchanged(book);
  }

  /** The path written for a formatted canonical reference has three segments: the
      book's slug, the chapter and the verse. */
  lemma RefToPathCanon(i: nat, chap: nat, verse: nat)
    requires i < |Canon|
    ensures Segments(RefToPath(FormatRef(Canon[i], chap, verse))) ==
            [Slug(Canon[i]), NatToString(chap), NatToString(verse)]
  {
    CanonFacts();
    var n := Canon[i];
    TitleBookGroup(BrowserRef, n);
    TitleEnds(n);
    RefToPathFormatted(n, chap, verse);
    assert Slug(n) != [] by {
      TitleWords(n);
      SlugOfWords(n);
    }
    PathSegments(Slug(n), NatToString(chap), NatToString(verse));
  }

  /** `render` writes `refToPath(ref)` into the URL and `pathToRef` reads it back: for
      every canonical book and every chapter and verse from 1 up, the reference survives. */
  lemma RenderRoundTrip(i: nat, chap: nat, verse: nat)
    requires i < |Canon| && chap >= 1 && verse >= 1
    ensures PathToRef(RefToPath(FormatRef(Canon[i], chap, verse))) == FormatRef(Canon[i], chap, verse)
  {
    var c, v := NatToString(chap), NatToString(verse);
    var path := RefToPath(FormatRef(Canon[i], chap, verse));
    RefToPathCanon(i, chap, verse);
    SlugToBookOfSlug(i);
    PathToRefOf(path, Slug(Canon[i]), Canon[i], c, v);
  }

  /** A path whose first three segments are a slug naming a book and two non-zero
      numbers reads back as that book, chapter and verse; later segments are ignored. */
  lemma PathToRefOf(path: string, slug: string, book: string, c: string, v: string)
    requires |Segments(path)| >= 3
    requires Segments(path)[0] == slug && Segments(path)[1] == c && Segments(path)[2] == v
    requires SlugToBook(slug) == Some(book)
    requires NumberTruthy(c) && NumberTruthy(v)
    ensures PathToRef(path) == book + " " + c + ":" + v
  {
  }

  /** A first segment that no name fits is passed through unchanged as the book. */
  lemma PathToRefUnknown(path: string, slug: string, c: string, v: string)
    requires |Segments(path)| >= 3
    requires Segments(path)[0] == slug && Segments(path)[1] == c && Segments(path)[2] == v
    requires SlugToBook(slug) == None
    requires NumberTruthy(c) && NumberTruthy(v)
    ensures PathToRef(path) == slug + " " + c + ":" + v
  {
  }

  /** A chapter or verse segment that is not a non-zero number gives the default. */
  lemma PathToRefNotNumber(path: string)
    requires |Segments(path)| >= 3
    requires !NumberTruthy(Segments(path)[1]) || !NumberTruthy(Segments(path)[2])
    ensures PathToRef(path) == DefaultRef
  {
  }

  /** Chapter 0 in the URL is not a reference: `/john/0/5/` shows the default. */
  lemma PathToRefZero(path: string)
    requires path == "/john/0/5/"
    ensures PathToRef(path) == DefaultRef
  {
    assert SlugShaped("john") && IsNumeral("0") && IsNumeral("5");
    assert path == "/" + "john" + "/" + "0" + "/" + "5" + "/";
    PathSegments("john", "0", "5");
    assert NumeralValue("0") == 0;
    PathToRefNotNumber(path);
  }

  /* ---------------- step: the candidate references ---------------- */

  /** The three candidates `step` builds inside the book of `p`: the verse moved by
      `delta`, a second try in the same chapter, and a neighbouring chapter. */
  function WithinBook(p: Ref, delta: int): (r: seq<string>)
    ensures |r| == 3
  {
    var near := FormatRef(p.book, p.chap, p.verse + delta);
    var within := if delta > 0 then FormatRef(p.book, p.chap, p.verse + 2)
                  else FormatRef(p.book, p.chap, Max(1, p.verse - 2));
    var across := if delta > 0 then FormatRef(p.book, p.chap + 1, 1)
                  else FormatRef(p.book, Max(1, p.chap - 1), 1);
    [near, within, across]
  }

  /** The position of the neighbouring book in the direction of travel. */
  function Neighbour(book: string, delta: int): int {
    CanonIndex(book) + (if delta > 0 then 1 else -1)
  }

  /** The cross-book candidate: the neighbouring book's first verse, when the book is
      found and the neighbour exists. */
  function NeighbourBook(book: string, delta: int): (r: seq<string>)
    ensures |r| <= 1
  {
    var ni := Neighbour(book, delta);
    if CanonIndex(book) >= 0 && 0 <= ni < |Canon| then [Canon[ni] + " 1:1"] else []
  }

  /** The references `step(ref, delta)` tries, in order, before probing them; none
      when the reference does not parse (then `step` returns it unchanged). */
  function StepCandidates(ref: string, delta: int): (r: Option<seq<string>>)
    ensures r.None? <==> ParseRef(ref).None?
    ensures r.Some? ==> 3 <= |r.value| <= 4
  {
    match ParseRef(ref)
    case None => None
    case Some(p) => Some(WithinBook(p, delta) + NeighbourBook(p.book, delta))
  }

  /** The first candidate, read back, is the verse moved by `delta`. */
  lemma StepNear(p: Ref, delta: int)
    requires BookGroup(BrowserRef, p.book) && !IsSpace(p.book[0]) && !IsSpace(p.book[|p.book| - 1])
    requires p.verse + delta >= 0
    ensures ParseRef(WithinBook(p, delta)[0]) == Some(Ref(p.book, p.chap, p.verse + delta))
  {
    assert WithinBook(p, delta)[0] == FormatRef(p.book, p.chap, p.verse + delta);
    ParseFormatted(p.book, p.chap, p.verse + delta);
  }

  /** Going forward, the second candidate, read back, is verse + 2 of the same chapter. */
  lemma StepForwardVerse(p: Ref, delta: int)
    requires BookGroup(BrowserRef, p.book) && !IsSpace(p.book[0]) && !IsSpace(p.book[|p.book| - 1])
    requires delta > 0
    ensures ParseRef(WithinBook(p, delta)[1]) == Some(Ref(p.book, p.chap, p.verse + 2))
  {
    assert WithinBook(p, delta)[1] == FormatRef(p.book, p.chap, p.verse + 2);
    ParseFormatted(p.book, p.chap, p.verse + 2);
  }

  /** Going forward, the third candidate, read back, is the first verse of the next chapter. */
  lemma StepForwardChapter(p: Ref, delta: int)
    requires BookGroup(BrowserRef, p.book) && !IsSpace(p.book[0]) && !IsSpace(p.book[|p.book| - 1])
    requires delta > 0
    ensures ParseRef(WithinBook(p, delta)[2]) == Some(Ref(p.book, p.chap + 1, 1))
  {
    assert WithinBook(p, delta)[2] == FormatRef(p.book, p.chap + 1, 1);
    ParseFormatted(p.book, p.chap + 1, 1);
  }

  /** Going back, the second candidate, read back, is verse max(1, verse - 2): never below 1. */
  lemma StepBackVerse(p: Ref, delta: int)
    requires BookGroup(BrowserRef, p.book) && !IsSpace(p.book[0]) && !IsSpace(p.book[|p.book| - 1])
    requires delta <= 0
    ensures ParseRef(WithinBook(p, delta)[1]) == Some(Ref(p.book, p.chap, Max(1, p.verse - 2)))
  {
    assert WithinBook(p, delta)[1] == FormatRef(p.book, p.chap, Max(1, p.verse - 2));
    ParseFormatted(p.book, p.chap, Max(1, p.verse - 2));
  }

  /** Going back, the third candidate, read back, is the first verse of chapter
      max(1, chapter - 1): never below 1. */
  lemma StepBackChapter(p: Ref, delta: int)
    requires BookGroup(BrowserRef, p.book) && !IsSpace(p.book[0]) && !IsSpace(p.book[|p.book| - 1])
    requires delta <= 0
    ensures ParseRef(WithinBook(p, delta)[2]) == Some(Ref(p.book, Max(1, p.chap - 1), 1))
  {
    assert WithinBook(p, delta)[2] == FormatRef(p.book, Max(1, p.chap - 1), 1);
    ParseFormatted(p.book, Max(1, p.chap - 1), 1);
  }

  /** The cross-book candidate exists exactly when the book is found and has a
      neighbour in the direction of travel: none forward from Revelation, none back
      from Genesis. */
  lemma StepCrossBookExists(book: string, delta: int)
    ensures |NeighbourBook(book, delta)| == 1 <==>
              CanonIndex(book) >= 0 && 0 <= Neighbour(book, delta) < 66
  {
    CanonFacts();
  }

  /** The cross-book candidate is the neighbour's first verse, one place away in canon
      order from the current book. */
  lemma StepCrossBook(book: string, delta: int)
    requires |NeighbourBook(book, delta)| == 1
    ensures var ni := Neighbour(book, delta);
            0 <= ni < 66 && ParseRef(NeighbourBook(book, delta)[0]) == Some(Ref(Canon[ni], 1, 1))
            && CanonIndex(Canon[ni]) == CanonIndex(book) + (if delta > 0 then 1 else -1)
  {
    LawPlace();
    var ni := Neighbour(book, delta);
    assert NeighbourBook(book, delta)[0] == Canon[ni] + " 1:1";
    FirstVerseOf(ni);
  }

  /** "<name> 1:1" for a canonical name reads back as that book's first verse, and the
      name is found at its own position. */
  lemma FirstVerseOf(i: nat)
    requires i < |Canon|
    ensures ParseRef(Canon[i] + " 1:1") == Some(Ref(Canon[i], 1, 1))
    ensures CanonIndex(Canon[i]) == i
  {
    assert IntToString(1) == "1";
    assert Canon[i] + " 1:1" == FormatRef(Canon[i], 1, 1);
    ParseFormattedCanon(i, 1, 1);
    CanonIndexOfName(Canon[i], i);
  }
}
