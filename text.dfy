// Character classes and string operations that both the ingestion script and the
// browser script rely on: JavaScript's `\s` class (the same set `trim()` removes),
// ASCII `toLowerCase`, `trim`, `replace(/X+/g, c)` on a character class, and the
// decimal numerals produced by `+m[2]`, `parseInt` and template-literal formatting.
module Text {

  datatype Option<T> = None | Some(value: T)

  /** JavaScript's `\s`, which is also the set `String.prototype.trim` strips:
      the ECMAScript WhiteSpace and LineTerminator characters. */
  predicate IsSpace(c: char) {
    || '\U{9}' <= c <= '\U{D}'
    || c == ' ' || c == '\U{A0}' || c == '\U{1680}'
    || '\U{2000}' <= c <= '\U{200A}'
    || c == '\U{2028}' || c == '\U{2029}' || c == '\U{202F}' || c == '\U{205F}'
    || c == '\U{3000}' || c == '\U{FEFF}'
  }

  predicate IsDigit(c: char) { '0' <= c <= '9' }
  predicate IsUpper(c: char) { 'A' <= c <= 'Z' }
  predicate IsLower(c: char) { 'a' <= c <= 'z' }
  predicate IsAsciiLetter(c: char) { IsUpper(c) || IsLower(c) }

  predicate AllSpace(s: string) { forall k | 0 <= k < |s| :: IsSpace(s[k]) }
  predicate AllDigits(s: string) { forall k | 0 <= k < |s| :: IsDigit(s[k]) }

  /** What `\d+` matches. */
  predicate IsNumeral(s: string) { |s| >= 1 && AllDigits(s) }

  predicate StartsWith(s: string, prefix: string) {
    |prefix| <= |s| && s[..|prefix|] == prefix
  }

  /* ---------------- case ---------------- */

  /** `toLowerCase` on one character; only ASCII is modelled. */
  function LowerChar(c: char): char {
    if IsUpper(c) then (c as int + 32) as char else c
  }

  function Lower(s: string): (r: string)
    ensures |r| == |s|
  {
    seq(|s|, k requires 0 <= k < |s| => LowerChar(s[k]))
  }

  lemma LowerIdempotent(s: string)
    ensures Lower(Lower(s)) == Lower(s)
  {
  }

  /* ---------------- trim ---------------- */

  /** The end of the run of `cls` characters that starts at `from`. */
  function Span(s: string, from: nat, cls: char -> bool): (e: nat)
    requires from <= |s|
    ensures from <= e <= |s|
    ensures forall k | from <= k < e :: cls(s[k])
    ensures e == |s| || !cls(s[e])
    decreases |s| - from
  {
    if from < |s| && cls(s[from]) then Span(s, from + 1, cls) else from
  }

  /** A span is determined by where its run stops. */
  lemma {:induction false} SpanIs(s: string, from: nat, cls: char -> bool, e: nat)
    requires from <= e <= |s|
    requires forall k | from <= k < e :: cls(s[k])
    requires e == |s| || !cls(s[e])
    ensures Span(s, from, cls) == e
    decreases e - from
  {
    if from < e {
      SpanIs(s, from + 1, cls, e);
    }
  }

  /** Drops the trailing whitespace run; the result is a prefix of `s`. */
  function TrimEnd(s: string): (r: string)
    ensures |r| <= |s| && r == s[..|r|]
    ensures AllSpace(s[|r|..])
    ensures r == [] || !IsSpace(r[|r| - 1])
  {
    if s != [] && IsSpace(s[|s| - 1]) then
      var r := TrimEnd(s[..|s| - 1]);
      AllSpaceSnoc(s, |r|);
      r
    else s
  }

  /** A whitespace tail grows by one more whitespace character. */
  lemma AllSpaceSnoc(s: string, i: nat)
    requires i < |s| && IsSpace(s[|s| - 1])
    requires AllSpace(s[..|s| - 1][i..])
    ensures AllSpace(s[i..])
  {
    forall k | 0 <= k < |s| - i ensures IsSpace(s[i..][k]) {
      if k < |s| - 1 - i {
        assert s[i..][k] == s[..|s| - 1][i..][k];
      }
    }
  }

  /** No whitespace at either end. */
  predicate Trimmed(s: string) {
    s == [] || (!IsSpace(s[0]) && !IsSpace(s[|s| - 1]))
  }

  /** `s.trim()`: the slice of `s` that starts after the leading whitespace run and
      stops before the trailing one. */
  function Trim(s: string): (r: string)
    ensures var n := Span(s, 0, IsSpace);
            n + |r| <= |s| && r == s[n..n + |r|] && AllSpace(s[n + |r|..])
    ensures Trimmed(r)
    ensures r == [] <==> AllSpace(s)
  {
    var n := Span(s, 0, IsSpace);
    var r := TrimEnd(s[n..]);
    assert s[n + |r|..] == s[n..][|r|..];
    assert r == [] ==> s == s[..n] + s[n..];
    r
  }

  /** Trimming text that has no whitespace at either end changes nothing. */
  lemma TrimUnchanged(s: string)
    requires Trimmed(s)
    ensures Trim(s) == s
  {
  }

  /** Trailing whitespace after text that ends outside it is what `TrimEnd` drops. */
  lemma {:induction false} TrimEndPad(c: string, p: string)
    requires c == [] || !IsSpace(c[|c| - 1])
    requires AllSpace(p)
    ensures TrimEnd(c + p) == c
    decreases |p|
  {
    if p == [] {
      assert c + p == c;
    } else {
      var q := p[..|p| - 1];
      assert (c + p)[..|c + p| - 1] == c + q;
      TrimEndPad(c, q);
    }
  }

  /** Trimming text padded with whitespace on both sides gives the text back. */
  lemma TrimPadded(p1: string, c: string, p2: string)
    requires AllSpace(p1) && AllSpace(p2)
    requires c != [] && Trimmed(c)
    ensures Trim(p1 + c + p2) == c
  {
    var s := p1 + c + p2;
    assert forall k | 0 <= k < |p1| :: s[k] == p1[k];
    assert s[|p1|] == c[0];
    SpanIs(s, 0, IsSpace, |p1|);
    assert s[|p1|..] == c + p2;
    TrimEndPad(c, p2);
  }

  /* ---------------- collapsing runs of a character class ---------------- */

  /** `s.replace(/X+/g, rep)` where X is the class `cls` and `rep` belongs to it:
      every maximal run of class characters becomes one `rep`. */
  function CollapseRuns(s: string, cls: char -> bool, rep: char): (r: string)
    requires cls(rep)
    ensures forall k | 0 <= k < |r| :: cls(r[k]) ==> r[k] == rep
    ensures forall k | 0 <= k < |r| - 1 :: !(cls(r[k]) && cls(r[k + 1]))
    ensures Keep(r, cls) == Keep(s, cls)
  {
    CollapseFrom(s, false, cls, rep)
  }

  /** The scan behind `CollapseRuns`; `inRun` says the previous character was in the class. */
  function CollapseFrom(s: string, inRun: bool, cls: char -> bool, rep: char): (r: string)
    requires cls(rep)
    ensures forall k | 0 <= k < |r| :: cls(r[k]) ==> r[k] == rep
    ensures forall k | 0 <= k < |r| - 1 :: !(cls(r[k]) && cls(r[k + 1]))
    ensures inRun && r != [] ==> !cls(r[0])
    ensures Keep(r, cls) == Keep(s, cls)
    decreases |s|
  {
    if s == [] then []
    else if !cls(s[0]) then [s[0]] + CollapseFrom(s[1..], false, cls, rep)
    else if inRun then CollapseFrom(s[1..], true, cls, rep)
    else [rep] + CollapseFrom(s[1..], true, cls, rep)
  }

  /** The characters of `s` outside the class, in order. */
  function Keep(s: string, cls: char -> bool): string
    decreases |s|
  {
    if s == [] then [] else (if cls(s[0]) then [] else [s[0]]) + Keep(s[1..], cls)
  }

  /** `s.replace(/\s+/g, " ")`: every whitespace run becomes one space. */
  function CollapseSpaces(s: string): (r: string)
    ensures forall k | 0 <= k < |r| :: IsSpace(r[k]) ==> r[k] == ' '
    ensures NoAdjacent(r, IsSpace)
    ensures Keep(r, IsSpace) == Keep(s, IsSpace)
  {
    CollapseRuns(s, IsSpace, ' ')
  }

  /** The characters of a string made only of class members: none. */
  lemma {:induction false} KeepAllClass(s: string, cls: char -> bool)
    requires forall k | 0 <= k < |s| :: cls(s[k])
    ensures Keep(s, cls) == []
    decreases |s|
  {
    if s != [] {
      KeepAllClass(s[1..], cls);
    }
  }

  lemma {:induction false} KeepAppend(a: string, b: string, cls: char -> bool)
    ensures Keep(a + b, cls) == Keep(a, cls) + Keep(b, cls)
    decreases |a|
  {
    if a == [] {
      assert a + b == b;
    } else {
      var h := if cls(a[0]) then [] else [a[0]];
      assert (a + b)[0] == a[0] && (a + b)[1..] == a[1..] + b;
      calc {
        Keep(a + b, cls);
        h + Keep(a[1..] + b, cls);
        { KeepAppend(a[1..], b, cls); }
        h + (Keep(a[1..], cls) + Keep(b, cls));
        (h + Keep(a[1..], cls)) + Keep(b, cls);
        Keep(a, cls) + Keep(b, cls);
      }
    }
  }

  /** Trimming drops whitespace only. */
  lemma TrimKeep(s: string)
    ensures Keep(Trim(s), IsSpace) == Keep(s, IsSpace)
  {
    var n := Span(s, 0, IsSpace);
    var r := Trim(s);
    SplitThree(s, n, n + |r|);
    assert AllSpace(s[..n]);
    KeepBetween(s[..n], r, s[n + |r|..]);
  }

  lemma SplitThree(s: string, i: nat, j: nat)
    requires i <= j <= |s|
    ensures s == s[..i] + s[i..j] + s[j..]
  {
  }

  /** Whitespace around a string drops out of its kept characters. */
  lemma KeepBetween(a: string, m: string, b: string)
    requires AllSpace(a) && AllSpace(b)
    ensures Keep(a + m + b, IsSpace) == Keep(m, IsSpace)
  {
    KeepAppend(a + m, b, IsSpace);
    KeepAppend(a, m, IsSpace);
    KeepAllClass(a, IsSpace);
    KeepAllClass(b, IsSpace);
  }

  /** Trimming keeps a collapsed string collapsed. */
  lemma TrimCollapsed(s: string)
    requires forall k | 0 <= k < |s| :: IsSpace(s[k]) ==> s[k] == ' '
    requires NoAdjacent(s, IsSpace)
    ensures var r := Trim(s);
            && (forall k | 0 <= k < |r| :: IsSpace(r[k]) ==> r[k] == ' ')
            && NoAdjacent(r, IsSpace)
  {
    var n := Span(s, 0, IsSpace);
    var r := Trim(s);
    assert forall k | 0 <= k < |r| :: r[k] == s[n + k];
  }

  /** Character-by-character replacement of class members by `rep`. */
  function ReplaceClass(s: string, cls: char -> bool, rep: char): (r: string)
    ensures |r| == |s|
  {
    seq(|s|, k requires 0 <= k < |s| => if cls(s[k]) then rep else s[k])
  }

  predicate NoAdjacent(s: string, cls: char -> bool) {
    forall k | 0 <= k < |s| - 1 :: !(cls(s[k]) && cls(s[k + 1]))
  }

  /** When no two class characters touch, collapsing runs is plain replacement. */
  lemma {:induction false} CollapseIsolated(s: string, inRun: bool, cls: char -> bool, rep: char)
    requires cls(rep)
    requires NoAdjacent(s, cls)
    requires inRun ==> s == [] || !cls(s[0])
    ensures CollapseFrom(s, inRun, cls, rep) == ReplaceClass(s, cls, rep)
    decreases |s|
  {
    if s != [] {
      NoAdjacentTail(s, cls);
      CollapseIsolated(s[1..], cls(s[0]), cls, rep);
      ReplaceClassCons(s, cls, rep);
    }
  }

  lemma NoAdjacentTail(s: string, cls: char -> bool)
    requires s != [] && NoAdjacent(s, cls)
    ensures NoAdjacent(s[1..], cls)
    ensures |s| > 1 && cls(s[0]) ==> !cls(s[1..][0])
  {
    forall k | 0 <= k < |s| - 2 ensures !(cls(s[1..][k]) && cls(s[1..][k + 1])) {
      assert s[1..][k] == s[k + 1] && s[1..][k + 1] == s[k + 2];
    }
  }

  lemma ReplaceClassCons(s: string, cls: char -> bool, rep: char)
    requires s != []
    ensures ReplaceClass(s, cls, rep) == [if cls(s[0]) then rep else s[0]] + ReplaceClass(s[1..], cls, rep)
  {
  }

  /** Text whose class characters are all `rep` and isolated is a fixed point of the collapse. */
  lemma CollapseFixedPoint(s: string, cls: char -> bool, rep: char)
    requires cls(rep)
    requires NoAdjacent(s, cls)
    requires forall k | 0 <= k < |s| :: cls(s[k]) ==> s[k] == rep
    ensures CollapseRuns(s, cls, rep) == s
  {
    CollapseIsolated(s, false, cls, rep);
  }

  /** What the scan emits for one character `c`, given whether a run was open. */
  function CollapseHead(c: char, inRun: bool, cls: char -> bool, rep: char): string {
    if !cls(c) then [c] else if inRun then [] else [rep]
  }

  /** One step of the scan. */
  lemma CollapseStep(s: string, inRun: bool, cls: char -> bool, rep: char)
    requires cls(rep) && s != []
    ensures CollapseFrom(s, inRun, cls, rep) ==
            CollapseHead(s[0], inRun, cls, rep) + CollapseFrom(s[1..], cls(s[0]), cls, rep)
  {
  }

  /** The scan reads left to right: collapsing `x + y` is collapsing `x`, then
      collapsing `y` from the state `x` ends in (whether its last character was in
      the class). */
  lemma {:induction false} CollapseAppend(x: string, y: string, inRun: bool, cls: char -> bool, rep: char)
    requires cls(rep)
    ensures CollapseFrom(x + y, inRun, cls, rep) ==
            CollapseFrom(x, inRun, cls, rep) + CollapseFrom(y, if x == [] then inRun else cls(x[|x| - 1]), cls, rep)
    decreases |x|
  {
    if x == [] {
      assert x + y == y;
    } else {
      var st := if x[1..] == [] then cls(x[0]) else cls(x[1..][|x[1..]| - 1]);
      assert st == cls(x[|x| - 1]);
      assert (x + y)[0] == x[0] && (x + y)[1..] == x[1..] + y;
      CollapseStep(x + y, inRun, cls, rep);
      CollapseStep(x, inRun, cls, rep);
      CollapseAppend(x[1..], y, cls(x[0]), cls, rep);
      ConcatChain(CollapseFrom(x + y, inRun, cls, rep), CollapseFrom(x, inRun, cls, rep),
                  CollapseHead(x[0], inRun, cls, rep), CollapseFrom(x[1..] + y, cls(x[0]), cls, rep),
                  CollapseFrom(x[1..], cls(x[0]), cls, rep), CollapseFrom(y, st, cls, rep));
    }
  }

  /** The associativity step of `CollapseAppend`, on plain strings. */
  lemma ConcatChain(p: string, q: string, h: string, r: string, a: string, b: string)
    requires p == h + r && r == a + b && q == h + a
    ensures p == q + b
  {
  }

  /** A run of class characters read inside a run adds nothing. */
  lemma {:induction false} CollapseRunInRun(run: string, cls: char -> bool, rep: char)
    requires cls(rep)
    requires forall k | 0 <= k < |run| :: cls(run[k])
    ensures CollapseFrom(run, true, cls, rep) == []
    decreases |run|
  {
    if run != [] {
      CollapseRunInRun(run[1..], cls, rep);
    }
  }

  /** A non-empty run of class characters becomes exactly one `rep`, or nothing when
      it continues a run. */
  lemma CollapseRun(run: string, inRun: bool, cls: char -> bool, rep: char)
    requires cls(rep)
    requires run != [] && forall k | 0 <= k < |run| :: cls(run[k])
    ensures CollapseFrom(run, inRun, cls, rep) == if inRun then [] else [rep]
  {
    CollapseRunInRun(run[1..], cls, rep);
  }

  /** Text with no class character passes through unchanged. */
  lemma {:induction false} CollapsePlain(w: string, inRun: bool, cls: char -> bool, rep: char)
    requires cls(rep)
    requires forall k | 0 <= k < |w| :: !cls(w[k])
    ensures CollapseFrom(w, inRun, cls, rep) == w
    decreases |w|
  {
    if w != [] {
      CollapsePlain(w[1..], false, cls, rep);
    }
  }

  /** A maximal run of class characters between `x` and `y` becomes exactly one `rep`
      in its place, and the text on either side is collapsed on its own. */
  lemma CollapseRunBetween(x: string, run: string, y: string, cls: char -> bool, rep: char)
    requires cls(rep)
    requires run != [] && forall k | 0 <= k < |run| :: cls(run[k])
    requires x == [] || !cls(x[|x| - 1])
    requires y == [] || !cls(y[0])
    ensures CollapseRuns(x + run + y, cls, rep) == CollapseRuns(x, cls, rep) + [rep] + CollapseRuns(y, cls, rep)
  {
    var xr := x + run;
    assert xr[|xr| - 1] == run[|run| - 1];
    CollapseAppend(xr, y, false, cls, rep);
    CollapseAppend(x, run, false, cls, rep);
    CollapseRun(run, false, cls, rep);
    assert CollapseFrom(y, true, cls, rep) == CollapseFrom(y, false, cls, rep);
  }

  /** One space for a non-empty whitespace run, nothing for an empty one. */
  function Pad(p: string): (r: string)
    ensures r == [] <==> p == []
    ensures AllSpace(r)
  {
    if p == [] then [] else " "
  }

  /** A text that starts and ends outside the whitespace class keeps those ends when
      its whitespace runs are collapsed. */
  lemma CollapseSpacesEnds(g: string)
    requires g != [] && !IsSpace(g[0]) && !IsSpace(g[|g| - 1])
    ensures var c := CollapseSpaces(g); c != [] && c[0] == g[0] && c[|c| - 1] == g[|g| - 1]
  {
    var init, last := g[..|g| - 1], g[|g| - 1];
    assert g == init + [last];
    CollapseStep(g, false, IsSpace, ' ');
    CollapseAppend(init, [last], false, IsSpace, ' ');
    CollapsePlain([last], if init == [] then false else IsSpace(init[|init| - 1]), IsSpace, ' ');
  }

  /** Whitespace around a text that starts and ends outside it collapses to at most one
      space on each side. */
  lemma CollapseSpacesPadded(p1: string, g: string, p2: string)
    requires AllSpace(p1) && AllSpace(p2)
    requires g != [] && !IsSpace(g[0]) && !IsSpace(g[|g| - 1])
    ensures CollapseSpaces(p1 + g + p2) == Pad(p1) + CollapseSpaces(g) + Pad(p2)
  {
    var st := p1 != [];
    assert p1 + g + p2 == p1 + (g + p2);
    CollapseAppend(p1, g + p2, false, IsSpace, ' ');
    if p1 != [] {
      assert IsSpace(p1[|p1| - 1]);
      CollapseRun(p1, false, IsSpace, ' ');
    }
    CollapseAppend(g, p2, st, IsSpace, ' ');
    CollapseStep(g, st, IsSpace, ' ');
    CollapseStep(g, false, IsSpace, ' ');
    if p2 != [] {
      CollapseRun(p2, false, IsSpace, ' ');
    }
    ConcatChain(CollapseSpaces(p1 + g + p2), Pad(p1) + CollapseSpaces(g), Pad(p1),
                CollapseFrom(g + p2, st, IsSpace, ' '), CollapseSpaces(g), Pad(p2));
  }

  /* ---------------- integers ---------------- */

  /** `Math.max(a, b)` */
  function Max(a: int, b: int): (m: int)
    ensures m >= a && m >= b && (m == a || m == b)
  {
    if a >= b then a else b
  }

  /* ---------------- decimal numerals ---------------- */

  function DigitValue(c: char): nat
    requires IsDigit(c)
  {
    c as int - '0' as int
  }

  function DigitChar(d: nat): (c: char)
    requires d < 10
    ensures IsDigit(c) && DigitValue(c) == d
  {
    ('0' as int + d) as char
  }

  /** The number a string of decimal digits denotes (`+s`, `parseInt(s, 10)`),
      leading zeros included. */
  function NumeralValue(s: string): nat
    requires AllDigits(s)
    decreases |s|
  {
    if s == [] then 0 else NumeralValue(s[..|s| - 1]) * 10 + DigitValue(s[|s| - 1])
  }

  /** How JavaScript prints a non-negative integer: shortest decimal form. */
  function NatToString(n: nat): (s: string)
    ensures IsNumeral(s)
    ensures NumeralValue(s) == n
    ensures s[0] == '0' ==> s == "0"
    decreases n
  {
    if n < 10 then [DigitChar(n)]
    else
      var head := NatToString(n / 10);
      assert (head + [DigitChar(n % 10)])[..|head|] == head;
      head + [DigitChar(n % 10)]
  }

  /** How JavaScript prints an integer, with a leading `-` when negative. */
  function IntToString(i: int): (s: string)
    ensures i >= 0 ==> IsNumeral(s) && NumeralValue(s) == i && (s[0] == '0' ==> s == "0")
    ensures i < 0 ==> |s| >= 2 && s[0] == '-' && IsNumeral(s[1..]) && NumeralValue(s[1..]) == -i && s[1] != '0'
  {
    if i < 0 then
      var m := NatToString(-i);
      assert ("-" + m)[1..] == m;
      "-" + m
    else NatToString(i)
  }
}
