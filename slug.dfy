// The URL slug of a book name: lower-case it, turn every run of characters outside
// [a-z0-9] into one hyphen, then drop one hyphen at each end.
module Slugs {
  import opened Text

  predicate IsSlugChar(c: char) { IsLower(c) || IsDigit(c) }

  /** The class `[^a-z0-9]` that the slug replaces. */
  predicate NotSlugChar(c: char) { !IsSlugChar(c) }

  /** Words of `[a-z0-9]` joined by single hyphens, no hyphen at either end. */
  predicate SlugShaped(t: string) {
    && (forall k | 0 <= k < |t| :: IsSlugChar(t[k]) || t[k] == '-')
    && (forall k | 0 <= k < |t| - 1 :: !(t[k] == '-' && t[k + 1] == '-'))
    && (t != [] ==> t[0] != '-' && t[|t| - 1] != '-')
  }

  /** `replace(/[^a-z0-9]+/g, "-")`. */
  function Hyphenate(s: string): (r: string)
    ensures forall k | 0 <= k < |r| :: IsSlugChar(r[k]) || r[k] == '-'
    ensures forall k | 0 <= k < |r| - 1 :: !(r[k] == '-' && r[k + 1] == '-')
    ensures Keep(r, NotSlugChar) == Keep(s, NotSlugChar)
  {
    CollapseRuns(s, NotSlugChar, '-')
  }

  /** A whole run of characters outside `[a-z0-9]`, between two that are inside it,
      becomes exactly one hyphen in its place. */
  lemma HyphenateRun(x: string, run: string, y: string)
    requires run != [] && forall k | 0 <= k < |run| :: NotSlugChar(run[k])
    requires x == [] || IsSlugChar(x[|x| - 1])
    requires y == [] || IsSlugChar(y[0])
    ensures Hyphenate(x + run + y) == Hyphenate(x) + "-" + Hyphenate(y)
  {
    CollapseRunBetween(x, run, y, NotSlugChar, '-');
  }

  /** `replace(/(^-|-$)/g, "")`: at most one hyphen goes from each end. */
  function StripHyphens(t: string): string {
    var u := if t != [] && t[0] == '-' then t[1..] else t;
    if u != [] && u[|u| - 1] == '-' then u[..|u| - 1] else u
  }

  lemma {:induction false} KeepDropLast(t: string)
    requires t != [] && NotSlugChar(t[|t| - 1])
    ensures Keep(t[..|t| - 1], NotSlugChar) == Keep(t, NotSlugChar)
    decreases |t|
  {
    if |t| > 1 {
      KeepDropLast(t[1..]);
      assert t[1..][..|t| - 2] == t[..|t| - 1][1..];
    }
  }

  /** `slug(s)`: the result is slug-shaped and keeps, in order, every letter and digit
      of the lower-cased input. */
  function Slug(s: string): (r: string)
    ensures SlugShaped(r)
    ensures Keep(r, NotSlugChar) == Keep(Lower(s), NotSlugChar)
  {
    var h := Hyphenate(Lower(s));
    StripHyphensShaped(h);
    StripHyphensKeep(h);
    StripHyphens(h)
  }

  /** Stripping the end hyphens of hyphenated text leaves a slug shape. */
  lemma StripHyphensShaped(h: string)
    requires forall k | 0 <= k < |h| :: IsSlugChar(h[k]) || h[k] == '-'
    requires forall k | 0 <= k < |h| - 1 :: !(h[k] == '-' && h[k + 1] == '-')
    ensures SlugShaped(StripHyphens(h))
  {
    var a := if h != [] && h[0] == '-' then 1 else 0;
    var b := if |h| > a && h[|h| - 1] == '-' then |h| - 1 else |h|;
    StripHyphensSlice(h, a, b);
    var r := h[a..b];
    forall k | 0 <= k < |r| ensures IsSlugChar(r[k]) || r[k] == '-' {
      assert r[k] == h[a + k];
    }
    forall k | 0 <= k < |r| - 1 ensures !(r[k] == '-' && r[k + 1] == '-') {
      assert r[k] == h[a + k] && r[k + 1] == h[a + k + 1];
    }
    if r != [] {
      assert r[0] == h[a] && r[|r| - 1] == h[b - 1];
    }
  }

  lemma StripHyphensSlice(h: string, a: nat, b: nat)
    requires a == if h != [] && h[0] == '-' then 1 else 0
    requires b == if |h| > a && h[|h| - 1] == '-' then |h| - 1 else |h|
    ensures a <= b <= |h| && StripHyphens(h) == h[a..b]
  {
    var u := if h != [] && h[0] == '-' then h[1..] else h;
    assert u == h[a..];
    if u != [] && u[|u| - 1] == '-' {
      assert u[..|u| - 1] == h[a..b];
    }
  }

  lemma StripHyphensKeep(h: string)
    ensures Keep(StripHyphens(h), NotSlugChar) == Keep(h, NotSlugChar)
  {
    var u := if h != [] && h[0] == '-' then h[1..] else h;
    assert Keep(u, NotSlugChar) == Keep(h, NotSlugChar);
    if u != [] && u[|u| - 1] == '-' {
      KeepDropLast(u);
    }
  }

  /** Text that already has the slug shape is its own slug. */
  lemma SlugOfSlugShaped(t: string)
    requires SlugShaped(t)
    ensures Slug(t) == t
  {
    HyphenateShaped(t);
    assert StripHyphens(t) == t;
  }

  /** Hyphenating slug-shaped text changes nothing. */
  lemma HyphenateShaped(t: string)
    requires SlugShaped(t)
    ensures Hyphenate(Lower(t)) == t
  {
    forall k | 0 <= k < |t| ensures !IsUpper(t[k]) && (NotSlugChar(t[k]) ==> t[k] == '-') {
    }
    assert Lower(t) == t;
    assert NoAdjacent(t, NotSlugChar);
    CollapseFixedPoint(t, NotSlugChar, '-');
  }

  /** In a name, a run of characters that are neither ASCII letters nor digits, between
      a letter or digit and another, slugs exactly as a single hyphen would. */
  lemma SlugRun(a: string, run: string, b: string)
    requires run != [] && forall k | 0 <= k < |run| :: !IsAsciiLetter(run[k]) && !IsDigit(run[k])
    requires a == [] || IsAsciiLetter(a[|a| - 1]) || IsDigit(a[|a| - 1])
    requires b == [] || IsAsciiLetter(b[0]) || IsDigit(b[0])
    ensures Slug(a + run + b) == Slug(a + "-" + b)
  {
    var la, lb := Lower(a), Lower(b);
    LowerKeepsRun(a, run, b);
    LowerKeepsRun(a, "-", b);
    HyphenateRun(la, run, lb);
    HyphenateRun(la, "-", lb);
  }

  /** Lower-casing goes piece by piece and leaves a run without letters alone. */
  lemma LowerKeepsRun(a: string, run: string, b: string)
    requires forall k | 0 <= k < |run| :: !IsAsciiLetter(run[k]) && !IsDigit(run[k])
    ensures Lower(a + run + b) == Lower(a) + run + Lower(b)
    ensures forall k | 0 <= k < |run| :: NotSlugChar(run[k])
    ensures a == [] || IsSlugChar(Lower(a)[|a| - 1]) <==> a == [] || IsAsciiLetter(a[|a| - 1]) || IsDigit(a[|a| - 1])
    ensures b == [] || IsSlugChar(Lower(b)[0]) <==> b == [] || IsAsciiLetter(b[0]) || IsDigit(b[0])
  {
    var l, r := Lower(a + run + b), Lower(a) + run + Lower(b);
    forall k | 0 <= k < |l| ensures l[k] == r[k] {
      if k < |a| {
      } else if k < |a| + |run| {
        assert (a + run + b)[k] == run[k - |a|];
      } else {
        assert (a + run + b)[k] == b[k - |a| - |run|];
      }
    }
  }

  /** A comma and a space between two letters slug as one hyphen: `a, b` gives `a-b`. */
  lemma SlugRunExample(x: char, y: char)
    requires IsLower(x) && IsLower(y)
    ensures Slug([x, ',', ' ', y]) == [x, '-', y]
  {
    CommaRun(x, y);
    var t := [x, '-', y];
    assert SlugShaped(t) by {
      assert forall k | 0 <= k < 3 :: t[k] == x || t[k] == '-' || t[k] == y;
    }
    SlugOfSlugShaped(t);
  }

  lemma CommaRun(x: char, y: char)
    requires IsLower(x) && IsLower(y)
    ensures Slug([x, ',', ' ', y]) == Slug([x, '-', y])
  {
    assert [x, ',', ' ', y] == [x] + ", " + [y];
    SlugRun([x], ", ", [y]);
    assert [x] + "-" + [y] == [x, '-', y];
  }

  /** Slugging twice is slugging once. */
  lemma SlugIdempotent(s: string)
    ensures Slug(Slug(s)) == Slug(s)
  {
    SlugOfSlugShaped(Slug(s));
  }

  /** Letters and digits in words separated by single spaces, no space at either end:
      the form of every canonical book name. */
  predicate Words(s: string) {
    forall k | 0 <= k < |s| ::
      || IsAsciiLetter(s[k]) || IsDigit(s[k])
      || (s[k] == ' ' && 0 < k < |s| - 1 && s[k + 1] != ' ')
  }

  /** Reference definition for names of that form: lower-case, each space a hyphen. */
  function HyphenLower(s: string): (r: string)
    ensures |r| == |s|
  {
    seq(|s|, k requires 0 <= k < |s| => if s[k] == ' ' then '-' else LowerChar(s[k]))
  }

  lemma SlugOfWords(s: string)
    requires Words(s)
    ensures Slug(s) == HyphenLower(s)
  {
    HyphenateWords(s);
    var hl := HyphenLower(s);
    assert hl != [] ==> hl[0] != '-' && hl[|hl| - 1] != '-';
    assert StripHyphens(hl) == hl;
  }

  lemma HyphenateWords(s: string)
    requires Words(s)
    ensures Hyphenate(Lower(s)) == HyphenLower(s)
  {
    var l := Lower(s);
    var hl := HyphenLower(s);
    forall k | 0 <= k < |l|
      ensures NotSlugChar(l[k]) <==> s[k] == ' '
      ensures hl[k] == if NotSlugChar(l[k]) then '-' else l[k]
    {
      assert l[k] == LowerChar(s[k]);
    }
    assert NoAdjacent(l, NotSlugChar);
    CollapseIsolated(l, false, NotSlugChar, '-');
  }

  /** A name with a leading number, worked through. */
  lemma SlugExampleNumbered(s: string)
    requires s == "1 Corinthians"
    ensures Slug(s) == "1-corinthians"
  {
    ExampleHyphenLower(s, "1-corinthians");
    SlugOfWords(s);
  }

  /** A name of several words, worked through. */
  lemma SlugExampleWords(s: string)
    requires s == "Song of Songs"
    ensures Slug(s) == "song-of-songs"
  {
    ExampleHyphenLower(s, "song-of-songs");
    SlugOfWords(s);
  }

  lemma ExampleHyphenLower(s: string, t: string)
    requires || (s == "1 Corinthians" && t == "1-corinthians")
             || (s == "Song of Songs" && t == "song-of-songs")
    ensures Words(s) && HyphenLower(s) == t
  {
    forall k | 0 <= k < |s|
      ensures IsAsciiLetter(s[k]) || IsDigit(s[k]) || (s[k] == ' ' && 0 < k < |s| - 1 && s[k + 1] != ' ')
    {
    }
    var h := HyphenLower(s);
    forall k | 0 <= k < |s| ensures h[k] == t[k] {
    }
  }
}
