// The two regular expressions that read a reference such as "1 John 3:16":
//   ingestion  ^(\d?\s?[A-Za-z .]+)\s+(\d+):(\d+)$
//   browser    ^\s*([1-3]?\s?[A-Za-z .]+)\s+(\d+):(\d+)\s*$   (refToPath and parseRef)
// A match is described declaratively (`MatchesAt`) and found by a search that backs off
// the way a backtracking engine does: the leading `\s*` from longest to shortest and,
// for each, the book group from longest to shortest. The chapter/verse tail can split
// only one way, because whitespace, digits and ':' are disjoint. Positions are absolute
// indexes into the subject string.
module RefPattern {
  import opened Text

  datatype Pattern = IngestRef | BrowserRef

  /** The class `[A-Za-z .]`. */
  predicate IsNameChar(c: char) { IsAsciiLetter(c) || c == ' ' || c == '.' }

  /** The optional leading digit: `\d` when ingesting, `[1-3]` in the browser. */
  predicate LeadDigit(pat: Pattern, c: char) {
    match pat
    case IngestRef => IsDigit(c)
    case BrowserRef => '1' <= c <= '3'
  }

  /** Every character of s[lo..hi] is in `[A-Za-z .]`. */
  predicate NameRun(s: string, lo: nat, hi: nat)
    requires lo <= hi <= |s|
  {
    forall k | lo <= k < hi :: IsNameChar(s[k])
  }

  /** The book group `\d?\s?[A-Za-z .]+` (or `[1-3]?\s?[A-Za-z .]+`) matches s[a..p]. */
  predicate BookGroupAt(pat: Pattern, s: string, a: nat, p: nat)
    requires a <= p <= |s|
  {
    || (a + 1 <= p && NameRun(s, a, p))
    || (a + 2 <= p && (LeadDigit(pat, s[a]) || IsSpace(s[a])) && NameRun(s, a + 1, p))
    || (a + 3 <= p && LeadDigit(pat, s[a]) && IsSpace(s[a + 1]) && NameRun(s, a + 2, p))
  }

  /** The book group matches the whole of `t`. */
  predicate BookGroup(pat: Pattern, t: string) {
    BookGroupAt(pat, t, 0, |t|)
  }

  /** Whether the book group matches depends only on the characters it covers. */
  lemma BookGroupShift(pat: Pattern, s: string, a: nat, p: nat)
    requires a <= p <= |s|
    ensures BookGroupAt(pat, s, a, p) == BookGroup(pat, s[a..p])
  {
    var t := s[a..p];
    assert forall k | 0 <= k < |t| :: t[k] == s[a + k];
    assert NameRun(s, a, p) == NameRun(t, 0, |t|);
    if |t| >= 1 {
      assert NameRun(s, a + 1, p) == NameRun(t, 1, |t|);
    }
    if |t| >= 2 {
      assert NameRun(s, a + 2, p) == NameRun(t, 2, |t|);
    }
  }

  /** Only the first character of a book group can be a digit. */
  lemma BookGroupDigits(pat: Pattern, s: string, a: nat, p: nat)
    requires a <= p <= |s|
    ensures BookGroupAt(pat, s, a, p) ==> forall m | a + 1 <= m < p :: !IsDigit(s[m])
  {
  }

  /** `\s+(\d+):(\d+)$` (or `...\s*$`) matches s[p..] with the chapter digits at
      [i, j), the colon at j and the verse digits at [j + 1, k). */
  predicate TailAt(pat: Pattern, s: string, p: nat, i: nat, j: nat, k: nat) {
    && p < i < j && j + 1 < k <= |s|
    && (forall m | p <= m < i :: IsSpace(s[m]))
    && (forall m | i <= m < j :: IsDigit(s[m]))
    && s[j] == ':'
    && (forall m | j + 1 <= m < k :: IsDigit(s[m]))
    && match pat
       case IngestRef => k == |s|
       case BrowserRef => forall m | k <= m < |s| :: IsSpace(s[m])
  }

  /** Reads the tail from p: a run of spaces, a run of digits, ':', a run of digits. */
  function Tail(pat: Pattern, s: string, p: nat): (r: Option<(nat, nat, nat)>)
    requires p <= |s|
    ensures r.Some? ==> TailAt(pat, s, p, r.value.0, r.value.1, r.value.2)
  {
    var i := Span(s, p, IsSpace);
    var j := Span(s, i, IsDigit);
    if p < i < j < |s| && s[j] == ':' then
      var k := Span(s, j + 1, IsDigit);
      var e := Span(s, k, IsSpace);
      var ends := match pat case IngestRef => k == |s| case BrowserRef => e == |s|;
      if j + 1 < k && ends then Some((i, j, k)) else None
    else None
  }

  /** The tail splits in exactly one way, and `Tail` finds it. */
  lemma TailComplete(pat: Pattern, s: string, p: nat, i: nat, j: nat, k: nat)
    requires TailAt(pat, s, p, i, j, k)
    ensures Tail(pat, s, p) == Some((i, j, k))
  {
    SpanIs(s, p, IsSpace, i);
    SpanIs(s, i, IsDigit, j);
    SpanIs(s, j + 1, IsDigit, k);
    if pat == BrowserRef {
      SpanIs(s, k, IsSpace, |s|);
    }
  }

  /** A tail always starts with whitespace. */
  lemma TailStartsWithSpace(pat: Pattern, s: string, p: nat)
    requires p <= |s|
    ensures Tail(pat, s, p).Some? ==> p < |s| && IsSpace(s[p])
  {
  }

  /** The book group spans [a, p) and the tail matches what follows it. */
  predicate BookAndTail(pat: Pattern, s: string, a: nat, p: nat) {
    a <= p <= |s| && BookGroupAt(pat, s, a, p) && Tail(pat, s, p).Some?
  }

  /** The leading `\s*` (browser only) covers [0, a). */
  predicate LeadOk(pat: Pattern, s: string, a: nat)
    requires a <= |s|
  {
    match pat
    case IngestRef => a == 0
    case BrowserRef => forall m | 0 <= m < a :: IsSpace(s[m])
  }

  /** The whole pattern matches `s`, the leading `\s*` covering [0, a) and the book
      group [a, p). */
  predicate MatchesAt(pat: Pattern, s: string, a: nat, p: nat) {
    a <= |s| && LeadOk(pat, s, a) && BookAndTail(pat, s, a, p)
  }

  /** The most the leading `\s*` can cover. */
  function Lead(pat: Pattern, s: string): (n: nat)
    ensures n <= |s|
    ensures forall a: nat | a <= |s| :: LeadOk(pat, s, a) <==> a <= n
  {
    match pat
    case IngestRef => 0
    case BrowserRef => Span(s, 0, IsSpace)
  }

  /** Book-group ends tried from `p` down to `a + 1`: the greedy `[A-Za-z .]+` backing off. */
  function LongestBook(pat: Pattern, s: string, a: nat, p: nat): (r: Option<nat>)
    requires a <= p <= |s|
    ensures r.Some? ==> a < r.value <= p && BookAndTail(pat, s, a, r.value)
    ensures forall q | (if r.Some? then r.value else a) < q <= p :: !BookAndTail(pat, s, a, q)
    decreases p
  {
    if p <= a then None
    else if BookAndTail(pat, s, a, p) then Some(p)
    else
      var r := LongestBook(pat, s, a, p - 1);
      NoneAbove(pat, s, a, if r.Some? then r.value else a, p);
      r
  }

  /** One more failed end extends the range in which nothing matches. */
  lemma NoneAbove(pat: Pattern, s: string, a: nat, lo: nat, p: nat)
    requires !BookAndTail(pat, s, a, p)
    requires forall q: nat | lo < q <= p - 1 :: !BookAndTail(pat, s, a, q)
    ensures forall q: nat | lo < q <= p :: !BookAndTail(pat, s, a, q)
  {
  }

  /** Leading-space lengths tried from `a` down to 0: the greedy `\s*` backing off. */
  function SearchFrom(pat: Pattern, s: string, a: nat): (r: Option<(nat, nat)>)
    requires a <= |s|
    ensures r.Some? ==> r.value.0 <= a && BookAndTail(pat, s, r.value.0, r.value.1)
    ensures r.Some? ==> forall q | r.value.1 < q <= |s| :: !BookAndTail(pat, s, r.value.0, q)
    ensures forall b: nat, q: nat | (if r.Some? then r.value.0 else -1) < b <= a ::
              !BookAndTail(pat, s, b, q)
    decreases a
  {
    match LongestBook(pat, s, a, |s|)
    case Some(p) => Some((a, p))
    case None => if a == 0 then None else SearchFrom(pat, s, a - 1)
  }

  /** The match a backtracking engine reports: the longest leading whitespace that
      still allows a match, then the longest book group. */
  function Search(pat: Pattern, s: string): (r: Option<(nat, nat)>)
    ensures r.Some? ==> MatchesAt(pat, s, r.value.0, r.value.1)
    ensures r.Some? ==> forall a: nat, p: nat | MatchesAt(pat, s, a, p) ::
                          a < r.value.0 || (a == r.value.0 && p <= r.value.1)
    ensures r.None? <==> forall a: nat, p: nat :: !MatchesAt(pat, s, a, p)
  {
    var lead := Lead(pat, s);
    var r := SearchFrom(pat, s, lead);
    assert r.Some? ==> MatchesAt(pat, s, r.value.0, r.value.1) by {
      if r.Some? {
        assert LeadOk(pat, s, r.value.0);
      }
    }
    assert r.None? ==> forall a: nat, p: nat :: !MatchesAt(pat, s, a, p) by {
      if r.None? {
        forall a: nat, p: nat | MatchesAt(pat, s, a, p) ensures a <= lead {
          assert LeadOk(pat, s, a);
        }
      }
    }
    r
  }

  /** The three captured groups. */
  datatype Groups = Groups(book: string, chap: string, verse: string)

  /** The groups of the match with the book group at [a, p). */
  function Captures(pat: Pattern, s: string, a: nat, p: nat): (g: Groups)
    requires BookAndTail(pat, s, a, p)
    ensures BookGroup(pat, g.book) && IsNumeral(g.chap) && IsNumeral(g.verse)
  {
    var (i, j, k) := Tail(pat, s, p).value;
    BookGroupShift(pat, s, a, p);
    Groups(s[a..p], s[i..j], s[j + 1..k])
  }

  /** `ref.match(re)`: the captures, or none when the pattern does not match. */
  function Match(pat: Pattern, s: string): (r: Option<Groups>)
    ensures r.None? <==> forall a: nat, p: nat :: !MatchesAt(pat, s, a, p)
    ensures r.Some? ==> BookGroup(pat, r.value.book) && IsNumeral(r.value.chap) && IsNumeral(r.value.verse)
  {
    var m := Search(pat, s);
    if m.None? then None else Some(Captures(pat, s, m.value.0, m.value.1))
  }

  /* ---------------- reading back a formatted reference ---------------- */

  /** The longest book group is the one after which nothing matches. */
  lemma LongestBookIs(pat: Pattern, s: string, a: nat, p: nat, n: nat)
    requires a < n <= p <= |s|
    requires BookAndTail(pat, s, a, n)
    requires forall q | n < q <= p :: !BookAndTail(pat, s, a, q)
    ensures LongestBook(pat, s, a, p) == Some(n)
  {
    var r := LongestBook(pat, s, a, p);
    assert r.Some? && r.value >= n;
    assert r.value <= n;
  }

  /** The characters of "<book> <chapter>:<verse>", position by position. */
  lemma FormattedChars(book: string, chap: string, verse: string)
    ensures var s := book + " " + chap + ":" + verse;
            var n, j := |book|, |book| + 1 + |chap|;
            && |s| == j + 1 + |verse|
            && (forall m | 0 <= m < n :: s[m] == book[m])
            && s[n] == ' ' && s[j] == ':'
            && (forall m | n + 1 <= m < j :: s[m] == chap[m - n - 1])
            && (forall m | j + 1 <= m < |s| :: s[m] == verse[m - j - 1])
  {
  }

  /** After the book, the tail reads the two numbers. */
  lemma FormattedTail(pat: Pattern, book: string, chap: string, verse: string)
    requires IsNumeral(chap) && IsNumeral(verse)
    ensures var s := book + " " + chap + ":" + verse;
            var n: nat := |book|;
            Tail(pat, s, n) == Some((n + 1, n + 1 + |chap|, |s|))
  {
    var s := book + " " + chap + ":" + verse;
    FormattedChars(book, chap, verse);
    TailComplete(pat, s, |book|, |book| + 1, |book| + 1 + |chap|, |s|);
  }

  /** No book group can reach past the book. */
  lemma FormattedNoLonger(pat: Pattern, book: string, chap: string, verse: string)
    requires IsNumeral(chap)
    ensures var s := book + " " + chap + ":" + verse;
            forall q | |book| < q <= |s| :: !BookAndTail(pat, s, 0, q)
  {
    var s := book + " " + chap + ":" + verse;
    var n := |book|;
    FormattedChars(book, chap, verse);
    forall q | n < q <= |s| ensures !BookAndTail(pat, s, 0, q) {
      if q == n + 1 {
        TailStartsWithSpace(pat, s, q);
      } else {
        BookGroupDigits(pat, s, 0, q);
      }
    }
  }

  /** The book followed by the tail is a match with no leading whitespace. */
  lemma FormattedMatches(pat: Pattern, book: string, chap: string, verse: string)
    requires BookGroup(pat, book)
    requires IsNumeral(chap) && IsNumeral(verse)
    ensures MatchesAt(pat, book + " " + chap + ":" + verse, 0, |book|)
  {
    var s := book + " " + chap + ":" + verse;
    FormattedTail(pat, book, chap, verse);
    assert s[0..|book|] == book;
    BookGroupShift(pat, s, 0, |book|);
  }

  /** Text that does not start with whitespace leaves nothing for the leading `\s*`. */
  lemma NoLead(pat: Pattern, s: string)
    requires s != [] && !IsSpace(s[0])
    ensures forall a: nat | a <= |s| && LeadOk(pat, s, a) :: a == 0
  {
  }

  /** In "<book> <chapter>:<verse>" the search settles on no leading whitespace and
      the whole book as the book group. */
  lemma FormattedSearch(pat: Pattern, book: string, chap: string, verse: string)
    requires BookGroup(pat, book) && !IsSpace(book[0]) && !IsSpace(book[|book| - 1])
    requires IsNumeral(chap) && IsNumeral(verse)
    ensures var s := book + " " + chap + ":" + verse;
            var n: nat := |book|;
            Search(pat, s) == Some((0, n))
  {
    var s := book + " " + chap + ":" + verse;
    FormattedMatches(pat, book, chap, verse);
    FormattedNoLonger(pat, book, chap, verse);
    NoLead(pat, s);
  }

  /** The three parts of "<book> <chapter>:<verse>" as slices. */
  lemma FormattedSlices(book: string, chap: string, verse: string)
    ensures var s := book + " " + chap + ":" + verse;
            var n, j := |book|, |book| + 1 + |chap|;
            && j + 1 + |verse| == |s|
            && s[0..n] == book && s[n + 1..j] == chap && s[j + 1..|s|] == verse
  {
    var s := book + " " + chap + ":" + verse;
    var n, j := |book|, |book| + 1 + |chap|;
    FormattedChars(book, chap, verse);
    assert forall m | 0 <= m < |chap| :: s[n + 1..j][m] == chap[m];
    assert forall m | 0 <= m < |verse| :: s[j + 1..|s|][m] == verse[m];
  }

  lemma FormattedCaptures(pat: Pattern, book: string, chap: string, verse: string)
    requires BookGroup(pat, book)
    requires IsNumeral(chap) && IsNumeral(verse)
    ensures var s := book + " " + chap + ":" + verse;
            BookAndTail(pat, s, 0, |book|) && Captures(pat, s, 0, |book|) == Groups(book, chap, verse)
  {
    FormattedMatches(pat, book, chap, verse);
    FormattedTail(pat, book, chap, verse);
    FormattedSlices(book, chap, verse);
  }

  /** A reference written "<book> <chapter>:<verse>" is read back as exactly those
      three parts, when the book is a possible book group with no whitespace at
      either end. */
  lemma MatchFormatted(pat: Pattern, book: string, chap: string, verse: string)
    requires BookGroup(pat, book) && !IsSpace(book[0]) && !IsSpace(book[|book| - 1])
    requires IsNumeral(chap) && IsNumeral(verse)
    ensures Match(pat, book + " " + chap + ":" + verse) == Some(Groups(book, chap, verse))
  {
    FormattedSearch(pat, book, chap, verse);
    FormattedCaptures(pat, book, chap, verse);
  }
}
