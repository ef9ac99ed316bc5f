# A verified model of the LEB Online reference handling

LEB Online publishes the Lexham English Bible as a static site. This project models two
parts of it in Dafny and proves properties of that model:

- **Ingestion.** `scripts/ingest-leb-text.mjs` turns a text file of `Book C:V<TAB>text`
  lines into the nested book/chapter/verse structure that the site is built from.
- **Reference helpers.** The browser script inside `build.mjs` contains the helpers that
  turn a reference such as `1 John 3:16` into the URL path `/1-john/3/16/` and back. They
  also locate a book in canon order and build the candidate references for the
  previous/next buttons.

The model has six modules, one per file:

| file | module | what it holds |
|---|---|---|
| `text.dfy` | `Text` | The character classes the scripts use. JavaScript's `\s` is modelled exactly; `toLowerCase` on ASCII letters only. Also `trim`, `replace(/X+/g, c)` on a character class, and decimal numerals as `+s`, `parseInt` and template literals read and print them. |
| `slug.dfy` | `Slugs` | `slug(name)`: lower-case, each run of `[^a-z0-9]` becomes `-`, one hyphen dropped at each end. |
| `refpattern.dfy` | `RefPattern` | The two reference regular expressions, described declaratively, with a search that backs off the way a backtracking engine does. Ingestion uses `^(\d?\s?[A-Za-z .]+)\s+(\d+):(\d+)$`. The browser uses `^\s*([1-3]?\s?[A-Za-z .]+)\s+(\d+):(\d+)\s*$`. |
| `canon.dfy` | `CanonOrder` | The 66 canonical names (`CANON` / `BOOKS`). Every name is title-shaped, no lower-cased name is a prefix of another, and the slugs are pairwise distinct. |
| `navigation.dfy` | `Navigation` | `canonIndex`, `parseRef`, `refToPath`, `slugToBook`, the path branch of `pathToRef` and the candidate list of `step`. |
| `ingest.dfy` | `Ingest` | `bookIndex`, the classification of one input line, the books as objects whose chapters grow in place, and the loop over all lines. |

The ingestion loop has two forms in the model:

- **The reference.** `Ingest.Run` is a function from the input lines to an outcome.
- **The program.** `Ingest.Ingest` is a method that creates the 66 `Book` objects and
  updates their chapters in place, line by line. Its contract says the books end holding
  exactly what `Run` computes.

The model keeps these behaviours of the code:

- **The leading digit.** The ingestion pattern accepts any digit before the book name
  (`\d?`), not only `1`-`3`.
- **Lines that abort the run.** Two kinds of line make the ingestion script throw, and
  then nothing is written:
  - a line with chapter 0. `B.chapters[-1]` is `undefined`, and reading its `length`
    throws.
  - a line whose book group normalises to a property that every object inherits, such as
    `toString`. `bookIndex[book]` finds a function rather than `null`, and `books[bi]` is
    then `undefined`. Seven inherited names can be matched by the book pattern. The
    others (`__proto__`, `__defineGetter__` and the like) contain underscores, which it
    cannot match.

  The model returns these as the outcome `Threw(line index)`.
- **Verse 0.** A line with verse 0 pads its chapter and otherwise changes nothing. The
  script assigns to the property `"-1"`, which is not an array slot and does not appear
  in the JSON output.

## Model

| member | source | states |
|---|---|---|
| Text.LowerIdempotent | build.mjs:181 | Lower-casing twice is lower-casing once. |
| Text.Trim | scripts/ingest-leb-text.mjs:44 | `trim()` returns the slice between the leading whitespace run and the trailing one. The result has no whitespace at either end, and it is empty exactly when the input is all whitespace. |
| Text.TrimUnchanged | scripts/ingest-leb-text.mjs:44 | Trimming text that has no whitespace at either end changes nothing. |
| Text.TrimKeep | scripts/ingest-leb-text.mjs:44 | Trimming removes whitespace characters only: every other character stays, in order. |
| Text.CollapseRuns | scripts/ingest-leb-text.mjs:29 | `replace(/X+/g, c)`: every class character left is `c`, no two class characters are adjacent, and the characters outside the class are kept in order. Where each run goes is stated by `CollapseRunBetween`. |
| Text.CollapseFrom | scripts/ingest-leb-text.mjs:29 | The scan behind the collapse meets the same three properties. After a class character it emits no class character first. Where each run's `c` lands is stated by `CollapseAppend` and `CollapseRun`. |
| Text.CollapseSpaces | scripts/ingest-leb-text.mjs:40 | `replace(/\s+/g, " ")`: the only whitespace left is single, non-adjacent spaces, and every other character is kept in order. `CollapseSpacesPadded` and `CollapseRunBetween` say where each run's space goes. |
| Text.CollapseIsolated | scripts/ingest-leb-text.mjs:29 | When no two class characters touch, collapsing runs equals replacing each class character by `c` (an independent reference definition). |
| Text.CollapseFixedPoint | scripts/ingest-leb-text.mjs:40 | Text that is already collapsed is its own collapse. |
| Text.TrimCollapsed | scripts/ingest-leb-text.mjs:40 | Trimming keeps collapsed text collapsed. |
| Text.TrimPadded | scripts/ingest-leb-text.mjs:44 | Trimming whitespace padding off text with non-space ends gives that text back. |
| Text.CollapseAppend | scripts/ingest-leb-text.mjs:29 | The collapse of `x + y` is the collapse of `x` followed by the collapse of `y`, which starts inside a run exactly when `x` ends in one. |
| Text.CollapseRun | scripts/ingest-leb-text.mjs:29 | A whole run of class characters becomes one `c`, or nothing when it continues a run. |
| Text.CollapsePlain | scripts/ingest-leb-text.mjs:29 | Text with no class character passes through unchanged. |
| Text.CollapseRunBetween | scripts/ingest-leb-text.mjs:29 | A whole run between two characters outside the class becomes exactly one `c` in its place: `collapse(x + run + y) == collapse(x) + c + collapse(y)`. |
| Text.CollapseSpacesEnds | scripts/ingest-leb-text.mjs:40 | Collapsing whitespace keeps the first and last character of text that has non-space ends. |
| Text.CollapseSpacesPadded | scripts/ingest-leb-text.mjs:40 | Leading and trailing whitespace runs each become one space, or nothing when absent. |
| Text.IsSpace | scripts/ingest-leb-text.mjs:40 | JavaScript's `\s`: the ASCII controls tab to carriage return, the space, the no-break space, the Unicode space separators, the line and paragraph separators, and the byte-order mark. |
| Text.LowerChar | build.mjs:181 | `toLowerCase` on one character: `A`-`Z` move to `a`-`z`, every other character stays. |
| Text.Lower | build.mjs:181 | `toLowerCase` on a string: each character lowered in place, so the length is kept. |
| Text.NumeralValue | scripts/ingest-leb-text.mjs:41 | `+s` on a digit string: the decimal value, read from the left. |
| Text.Max | build.mjs:193 | `Math.max`: at least both arguments and equal to one of them. |
| Text.NatToString | build.mjs:190 | A template literal prints a natural number as a non-empty digit string that reads back as the number, without a leading zero. |
| Text.IntToString | build.mjs:190 | A template literal prints an integer so that it reads back. A non-negative one is a digit string with its value and no leading zero. A negative one, such as the `-1` that `step` prints for verse 0 going back, is `-` followed by such a string whose value is the magnitude, not starting with `0`. |
| Slugs.Hyphenate | scripts/ingest-leb-text.mjs:29 | `replace(/[^a-z0-9]+/g, "-")` leaves only `[a-z0-9]` and single hyphens, and keeps every letter and digit in order. `HyphenateRun` says that each run becomes one hyphen in its place. |
| Slugs.HyphenateRun | scripts/ingest-leb-text.mjs:29 | A whole run outside `[a-z0-9]`, between two characters inside it, becomes exactly one hyphen in its place. |
| Slugs.StripHyphens | scripts/ingest-leb-text.mjs:29 | The second `replace` of the slug: one leading hyphen and one trailing hyphen are dropped, no more. |
| Slugs.Slug | scripts/ingest-leb-text.mjs:29 | The slug is slug-shaped: `[a-z0-9]` words joined by single hyphens, no hyphen at either end. It keeps every letter and digit of the lower-cased name, in order. |
| Slugs.StripHyphensShaped | scripts/ingest-leb-text.mjs:29 | Dropping one hyphen at each end of hyphenated text leaves a slug shape. |
| Slugs.StripHyphensKeep | scripts/ingest-leb-text.mjs:29 | Dropping the end hyphens keeps every letter and digit. |
| Slugs.SlugOfSlugShaped | scripts/ingest-leb-text.mjs:29 | A slug-shaped string is its own slug. |
| Slugs.SlugIdempotent | scripts/ingest-leb-text.mjs:29 | Slugging twice is slugging once. |
| Slugs.SlugRun | scripts/ingest-leb-text.mjs:29 | A run of characters that are neither letters nor digits, between two letters or digits, slugs exactly as one hyphen does. |
| Slugs.LowerKeepsRun | scripts/ingest-leb-text.mjs:29 | Lower-casing goes piece by piece and leaves such a run alone. |
| Slugs.SlugRunExample | scripts/ingest-leb-text.mjs:29 | The slug of `a, b` is `a-b`: the comma and the space become one hyphen. |
| Slugs.HyphenateWords | scripts/ingest-leb-text.mjs:29 | For words separated by single spaces, hyphenating the lower-cased text is lower-casing with each space as `-`. |
| Slugs.SlugOfWords | scripts/ingest-leb-text.mjs:29 | For such names the slug equals the reference definition `HyphenLower`. |
| Slugs.SlugExampleNumbered | scripts/ingest-leb-text.mjs:29 | The slug of `1 Corinthians` is `1-corinthians`. |
| Slugs.SlugExampleWords | scripts/ingest-leb-text.mjs:29 | The slug of `Song of Songs` is `song-of-songs`. |
| RefPattern.BookGroupShift | scripts/ingest-leb-text.mjs:38 | Whether the book group matches depends only on the characters it covers. |
| RefPattern.BookGroupAt | scripts/ingest-leb-text.mjs:38 | The book group `\d?\s?[A-Za-z .]+` (`[1-3]?\s?[A-Za-z .]+` in the browser pattern) covers exactly the characters from `a` to `p`. |
| RefPattern.TailAt | scripts/ingest-leb-text.mjs:38 | The tail `\s+(\d+):(\d+)` after the book group, then the end (`\s*$` in the browser pattern), with the capture positions of chapter and verse. |
| RefPattern.MatchesAt | scripts/ingest-leb-text.mjs:38 | A whole match: the leading whitespace, the book group and the tail, together covering the string. |
| RefPattern.Tail | scripts/ingest-leb-text.mjs:38 | The chapter/verse tail it returns satisfies the tail pattern: whitespace, digits, `:`, digits, then the end (ingestion) or trailing whitespace only (browser). |
| RefPattern.TailComplete | build.mjs:175 | The tail can split in only one way, and `Tail` finds it. |
| RefPattern.Lead | build.mjs:175 | The leading `\s*` can cover exactly the prefixes up to the leading whitespace run. In the ingestion pattern it covers nothing. |
| RefPattern.LongestBook | scripts/ingest-leb-text.mjs:38 | The greedy book group backs off to the longest end after which the tail matches. No longer end matches. |
| RefPattern.SearchFrom | build.mjs:175 | Backing off the leading whitespace from a given length: the first length that admits a match, and no longer length admits one. |
| RefPattern.Search | build.mjs:175 | There is a match exactly when the pattern can match. The one reported is the greatest in the engine's preference order: the longest leading whitespace, then the longest book group. |
| RefPattern.Captures | scripts/ingest-leb-text.mjs:38 | The captured book satisfies the book group, and the chapter and verse are digit strings. |
| RefPattern.Match | scripts/ingest-leb-text.mjs:38-39 | `ref.match(re)` is null exactly when no match exists. Otherwise the three groups have the shapes the pattern demands. |
| RefPattern.LongestBookIs | scripts/ingest-leb-text.mjs:38 | The book end a search settles on is characterised by "it matches and nothing longer does". |
| RefPattern.FormattedSearch | build.mjs:175 | In `<book> <chapter>:<verse>` the search takes no leading whitespace and the whole book as the book group. |
| RefPattern.MatchFormatted | build.mjs:175 | Round trip: a reference written `<book> <chapter>:<verse>` is matched back as exactly those three parts, when the book is a possible book group without surrounding whitespace. |
| CanonOrder.CanonFacts | scripts/ingest-leb-text.mjs:16-26 | The canon has 66 names, each of the shape of a title, and the key of each is the one in the key table. |
| CanonOrder.KeysDistinct | scripts/ingest-leb-text.mjs:16-26 | The 66 keys (first five lower-cased characters) are pairwise distinct. |
| CanonOrder.PrefixKey | build.mjs:182 | When one title's lower-cased form starts with another's, their keys agree on the shorter one's characters. |
| CanonOrder.PrefixFree | build.mjs:182 | No lower-cased canonical name is a prefix of another. |
| CanonOrder.Distinct | scripts/ingest-leb-text.mjs:28 | The 66 names are pairwise distinct, even ignoring case, so `bookIndex` has 66 entries. |
| CanonOrder.TitleWords | scripts/ingest-leb-text.mjs:29 | Every title consists of words in the sense the slug reference definition needs. |
| CanonOrder.SlugsDistinct | scripts/ingest-leb-text.mjs:31 | The 66 slugs are pairwise distinct, so a slug names one book. |
| CanonOrder.TitleEnds | scripts/ingest-leb-text.mjs:40 | A title has no whitespace at either end. |
| CanonOrder.TitleBookGroup | scripts/ingest-leb-text.mjs:38 | Every title is matched whole by the book group of either pattern. |
| Navigation.FindFrom | build.mjs:181 | The first index from `from` on whose element satisfies the test, or -1 when none does. |
| Navigation.FindIndex | build.mjs:181 | `findIndex`: the first index whose element satisfies the test, or -1 when none does. |
| Navigation.CanonIndex | build.mjs:180-183 | A case-insensitive exact match wins. Otherwise the result is the first book whose lower-cased name starts with the lower-cased input. It is -1 exactly when no name has that prefix. |
| Navigation.CanonIndexOfName | build.mjs:181 | A canonical name, in any letter case, is found at its own position. |
| Navigation.CanonIndexFirstPrefix | build.mjs:182 | On this canon the exact pass never changes the answer: the result is always the first prefix match. |
| Navigation.ParseRef | build.mjs:174-178 | null exactly when the browser pattern cannot match. Otherwise the book it returns is trimmed. |
| Navigation.ParseFormatted | build.mjs:174-178 | Round trip: a template-literal reference `${book} ${chap}:${verse}` parses back to the same book, chapter and verse. |
| Navigation.ParseFormattedTitle | build.mjs:174-178 | The same round trip for every title-shaped book. |
| Navigation.ParseFormattedCanon | build.mjs:174-178 | The same round trip for every canonical book. |
| Navigation.FormatRef | build.mjs:190 | The template literal `${book} ${chap}:${verse}`, with the numbers printed as JavaScript prints them. |
| Navigation.PieceStart | build.mjs:115 | Where the path piece ending at a position starts: just after the last slash before it, or at 0. |
| Navigation.Segments | build.mjs:115 | `split("/").filter(Boolean)` gives non-empty pieces without slashes. |
| Navigation.SegmentsSlash | build.mjs:115 | A trailing slash adds no segment. |
| Navigation.SegmentsPiece | build.mjs:115 | A non-empty piece without slashes after a slash is one more segment. |
| Navigation.PathOf | build.mjs:131 | A path built from pieces ends with a slash. |
| Navigation.SegmentsOfPath | build.mjs:115 | Round trip: splitting a path built from non-empty, slash-free pieces gives the pieces back. |
| Navigation.PathSegments | build.mjs:131 | The path `refToPath` writes splits back into slug, chapter and verse. An empty slug leaves no segment. |
| Navigation.RefToPath | build.mjs:124-132 | `/` when the reference does not match. Otherwise a path whose segments are the slug of the trimmed book (slug-shaped) and the chapter and verse digits copied verbatim. |
| Navigation.RefToPathFormatted | build.mjs:124-132 | The path of a formatted reference is `/<slug>/<chapter>/<verse>/`. |
| Navigation.RefToPathCanon | build.mjs:124-132 | For a canonical book that path has exactly three segments: slug, chapter, verse. |
| Navigation.Unhyphenate | build.mjs:135 | `replace(/-/g, " ")` keeps the length and leaves no hyphen. |
| Navigation.SlugTarget | build.mjs:135-137 | What `slugToBook` looks for: hyphens as spaces, trimmed, lower-cased. |
| Navigation.Folded | build.mjs:138 | How each name is folded: lower-cased, whitespace runs as one space. |
| Navigation.Fits | build.mjs:138 | The test on each name: its folded form starts with the target. |
| Navigation.SlugToBook | build.mjs:134-139 | `find` returns the first canonical name, in canon order, whose folded form starts with the target. It returns none exactly when no name fits. |
| Navigation.FirstFitUnique | build.mjs:138 | At most one book is the first that a target fits, so `find` has one answer. |
| Navigation.SlugToBookFirst | build.mjs:138 | `jo` fits Joshua, Job, Joel, Jonah and John, and `find` gives Joshua, the first. |
| Navigation.FoldedPrefix | build.mjs:138 | Folding leaves a first stretch without whitespace as lower-casing left it. |
| Navigation.NotInitial | build.mjs:138 | A name whose first letter differs from the target's is not fitted. |
| Navigation.FoldedTitle | build.mjs:138 | A canonical name folds to its lower-cased form. |
| Navigation.SlugTargetOfCanon | build.mjs:135-137 | The target read back from a canonical slug is the lower-cased name. |
| Navigation.OnlyOwnFits | build.mjs:138 | That target fits its own book and no other. |
| Navigation.SlugToBookOfSlug | build.mjs:134-139 | Round trip: the slug of every canonical name leads back to that name. |
| Navigation.SlugToBookBlank | build.mjs:134-139 | A slug of hyphens and whitespace only yields Genesis: the matcher is rough. |
| Navigation.PathToRef | build.mjs:115-121 | A path of fewer than three segments gives the default reference `John 1:1`. |
| Navigation.PathToRefOf | build.mjs:116-119 | A path whose first three segments are a slug naming a book and two non-zero numbers reads back as `book chap:verse`. Later segments are ignored. |
| Navigation.NumberTruthy | build.mjs:119 | `Number(s)` is truthy for a digit string exactly when its value is not zero. |
| Navigation.PathToRefUnknown | build.mjs:118-119 | A first segment that no name fits is passed through raw as the book. |
| Navigation.PathToRefNotNumber | build.mjs:119-121 | A chapter or verse segment that is not a non-zero number gives the default reference. |
| Navigation.PathToRefZero | build.mjs:119-121 | `/john/0/5/` gives the default `John 1:1`: chapter 0 is falsy. |
| Navigation.RenderRoundTrip | build.mjs:162-165 | Round trip: `pathToRef(refToPath(ref))` gives back `ref` for every canonical book and every chapter and verse from 1. |
| Navigation.WithinBook | build.mjs:188-199 | `step` builds three candidates inside the book. |
| Navigation.NeighbourBook | build.mjs:201-205 | At most one cross-book candidate. |
| Navigation.StepCandidates | build.mjs:185-205 | None exactly when `parseRef` fails, so `step` returns the reference unchanged. Otherwise three or four candidates. |
| Navigation.StepNear | build.mjs:190 | The first candidate reads back as the verse moved by `delta`. |
| Navigation.StepForwardVerse | build.mjs:192 | Going forward, the second candidate reads back as verse + 2. |
| Navigation.StepForwardChapter | build.mjs:196 | Going forward, the third candidate reads back as the first verse of the next chapter. |
| Navigation.StepBackVerse | build.mjs:193 | Going back, the second candidate reads back as verse max(1, verse - 2). |
| Navigation.StepBackChapter | build.mjs:198 | Going back, the third candidate reads back as verse 1 of chapter max(1, chapter - 1). |
| Navigation.StepCrossBookExists | build.mjs:201-204 | The cross-book candidate exists exactly when the book is found and has a neighbour in the direction of travel. |
| Navigation.StepCrossBook | build.mjs:203-204 | The cross-book candidate reads back as verse 1:1 of the neighbour, one place away in canon order. |
| Navigation.FirstVerseOf | build.mjs:204 | `<name> 1:1` reads back as the first verse of the book, and the name is found at its own position. |
| Ingest.BookIndex | scripts/ingest-leb-text.mjs:28 | Every canonical name maps to its position, and every key is a canonical name at that position. |
| Ingest.LookupCaseSensitive | scripts/ingest-leb-text.mjs:42 | The lookup is exact: a name that differs from a canonical one only in case is not found. |
| Ingest.LookupExample | scripts/ingest-leb-text.mjs:42 | `genesis` is not a book. |
| Ingest.NormalizeBook | scripts/ingest-leb-text.mjs:40 | The result has only single, non-adjacent spaces as whitespace and none at either end. It drops nothing but whitespace. `NormalizeRun` and `NormalizePadded` say where each run goes. |
| Ingest.NormalizeTitle | scripts/ingest-leb-text.mjs:40 | A canonical name is normalised to itself. |
| Ingest.NormalizeIdempotent | scripts/ingest-leb-text.mjs:40 | Normalising twice is normalising once. |
| Ingest.NormalizeRun | scripts/ingest-leb-text.mjs:40 | A whitespace run between two non-space characters normalises as one space does. |
| Ingest.NormalizePadded | scripts/ingest-leb-text.mjs:40 | Whitespace before and after a group with non-space ends is dropped. |
| Ingest.NormalizeExample | scripts/ingest-leb-text.mjs:40 | ` Song  of<TAB>Songs ` normalises to `Song of Songs`, the canonical name. |
| Ingest.Fields | scripts/ingest-leb-text.mjs:36 | `split("\t")`: the text before the first tab, and the text up to the next tab or the end. There is no second field exactly when the line has no tab. |
| Ingest.FieldsOf | scripts/ingest-leb-text.mjs:36 | Round trip: splitting `ref<TAB>text`, with or without a further tab, gives back `ref` and `text`. |
| Ingest.Among | scripts/ingest-leb-text.mjs:42 | Membership, one entry at a time. |
| Ingest.Classify | scripts/ingest-leb-text.mjs:35-44 | A line is skipped as blank exactly when it is all whitespace. A put names one of the 66 books, comes from a line with a tab, and carries trimmed text. |
| Ingest.ClassifyFields | scripts/ingest-leb-text.mjs:36-37 | A line is skipped as `MissingField` exactly when the reference is empty or the text field is missing or empty. A put needs a second field. |
| Ingest.NoTabLine | scripts/ingest-leb-text.mjs:36-37 | A line that is not blank and has no tab is skipped as `MissingField` and changes no book. |
| Ingest.EmptyFieldLine | scripts/ingest-leb-text.mjs:36-37 | A line that is not blank but whose reference or text is empty is skipped as `MissingField` and changes no book. |
| Ingest.ClassifyRef | scripts/ingest-leb-text.mjs:38-44 | Skips come from a failed pattern or an unknown book. A put names one of the 66 books with the trimmed text. |
| Ingest.ClassifyRefCases | scripts/ingest-leb-text.mjs:38-43 | Exactly which references are skipped, which throw and which are puts. A put is for the canonical name that the normalised book group spells. |
| Ingest.ClassifySplit | scripts/ingest-leb-text.mjs:36-37 | A line `ref<TAB>text[<TAB>rest]` is classified by its reference and its text. |
| Ingest.MatchTitleRef | scripts/ingest-leb-text.mjs:38 | A reference with a title-shaped book is matched whole. |
| Ingest.TitleRefNoTab | scripts/ingest-leb-text.mjs:36 | Such a reference contains no tab. |
| Ingest.ClassifyTitleLine | scripts/ingest-leb-text.mjs:35-44 | A well-formed line naming a known book puts its trimmed text at that book, chapter and verse. |
| Ingest.ClassifyVerseLine | scripts/ingest-leb-text.mjs:35-44 | The same, for every canonical book. |
| Ingest.ClassifyExtraField | scripts/ingest-leb-text.mjs:36 | A second tab and whatever follows it make no difference. |
| Ingest.InheritedNotCanon | scripts/ingest-leb-text.mjs:28 | The inherited property names are not canonical names. |
| Ingest.InheritedTitle | scripts/ingest-leb-text.mjs:38 | Every inherited property name is title-shaped, so the book group can match it. |
| Ingest.ClassifyInheritedRef | scripts/ingest-leb-text.mjs:42-46 | A reference naming an inherited property throws. |
| Ingest.ClassifyInheritedLine | scripts/ingest-leb-text.mjs:42-46 | A line such as `toString 1:1<TAB>text` throws rather than being skipped. |
| Ingest.PadTo | scripts/ingest-leb-text.mjs:46-48 | The `while (… .length < n) push(fill)` loops: the length becomes max(old, n), the old entries stay, and new entries are `fill`. |
| Ingest.SameView | scripts/ingest-leb-text.mjs:46-49 | Chapters are equal when every chapter length and every slot agree. |
| Ingest.InsertedView | scripts/ingest-leb-text.mjs:46-49 | Lines 46-49 in full: the chapter count becomes max(old, chap), chapter `chap` becomes max(old, verse) long, and slot `verse` holds the text. Every other chapter and slot is unchanged, with new ones empty. |
| Ingest.InsertedOverwrite | scripts/ingest-leb-text.mjs:49 | Writing a slot twice leaves the second text. |
| Ingest.InsertedCommute | scripts/ingest-leb-text.mjs:46-49 | Writes to different slots commute. |
| Ingest.InsertedGap | scripts/ingest-leb-text.mjs:48 | Verses 1 and 3 into an empty book leave `""` in slot 2. |
| Ingest.Inserted | scripts/ingest-leb-text.mjs:46-49 | The value the two padding loops and the assignment compute. `InsertedView` states it in full. |
| Ingest.Book.constructor | scripts/ingest-leb-text.mjs:31 | A book starts with its name, the name as abbreviation, the slug of the name, and no chapters. |
| Ingest.Book.Put | scripts/ingest-leb-text.mjs:46-49 | The two padding loops and the assignment, in place: the chapters become `Inserted(old chapters, chap, verse, text)`. |
| Ingest.Empty | scripts/ingest-leb-text.mjs:31 | 66 books, none with chapters. |
| Ingest.Apply | scripts/ingest-leb-text.mjs:45-49 | One pass of the loop body throws exactly on chapter 0 or an inherited name, reporting its own line. Otherwise it keeps 66 books. |
| Ingest.Replay | scripts/ingest-leb-text.mjs:34-50 | The loop over the actions keeps 66 books, and a throw names one of the lines. |
| Ingest.Actions | scripts/ingest-leb-text.mjs:34 | Every line's action, in order. |
| Ingest.Run | scripts/ingest-leb-text.mjs:34-50 | The whole loop: 66 books written out, or a throw at one of the lines. |
| Ingest.ReplaySnoc | scripts/ingest-leb-text.mjs:34-50 | One more action is one more pass of the loop body, unless the loop has already thrown. |
| Ingest.ActionsSnoc | scripts/ingest-leb-text.mjs:34 | One more line appends its action. |
| Ingest.RunSnoc | scripts/ingest-leb-text.mjs:34-50 | One more line applies its action to the books so far, unless the run has already thrown. |
| Ingest.SkippedLine | scripts/ingest-leb-text.mjs:35-43 | A skipped line changes no book. |
| Ingest.PutLine | scripts/ingest-leb-text.mjs:45-49 | A put changes its own book only. |
| Ingest.ThrowingLine | scripts/ingest-leb-text.mjs:45-48 | A line with chapter 0 or an inherited name makes the run throw at that line. |
| Ingest.ReplayThrewStays | scripts/ingest-leb-text.mjs:34-50 | Once the loop has thrown, later actions change nothing. |
| Ingest.ThrewStays | scripts/ingest-leb-text.mjs:34-50 | Once the script has thrown, later lines change nothing. |
| Ingest.ReplayOverwrite | scripts/ingest-leb-text.mjs:49 | Two puts to the same slot: the later one wins. |
| Ingest.RepeatedReference | scripts/ingest-leb-text.mjs:49 | Two lines with the same reference: the later text wins. |
| Ingest.GapReplay | scripts/ingest-leb-text.mjs:46-49 | Puts of verses 1 and 3 of chapter 1 of Genesis give `[[x, "", y]]`. |
| Ingest.ActionsPair | scripts/ingest-leb-text.mjs:34 | Two lines run as their two actions. |
| Ingest.GapExample | scripts/ingest-leb-text.mjs:48 | Lines `Genesis 1:1` and `Genesis 1:3` give a first chapter of three slots with `""` in the middle. |
| Ingest.MakeBooks | scripts/ingest-leb-text.mjs:31 | `names.map(...)`: one new book per name, in order, each with no chapters, all distinct objects. |
| Ingest.NewBooks | scripts/ingest-leb-text.mjs:31 | The 66 books in canon order, new, distinct and empty. |
| Ingest.PutInto | scripts/ingest-leb-text.mjs:45-49 | Book `i` takes one verse in place, and every other book keeps its chapters. |
| Ingest.NoLinesYet | scripts/ingest-leb-text.mjs:31 | Before any line, the books hold what `Run` gives for no lines. |
| Ingest.ReadLine | scripts/ingest-leb-text.mjs:35-49 | One pass of the loop body, in place: the books end as `Apply` says, and the result tells whether the line threw. |
| Ingest.Ingest | scripts/ingest-leb-text.mjs:31-50 | The script creates the 66 books in canon order with name, abbreviation and slug, all new and distinct objects. Their chapters end as `Run` computes, or the reported line is where `Run` throws. |

## Left out

- File input and output, the command-line arguments and the usage error, and the JSON document written out (lines 10-14 and 52-67). The lines are a parameter.
- The split of the file on `\r?\n`: the model takes the lines as given.
- `console.error` messages for skipped lines. The model records why a line is skipped instead.
- Non-ASCII `toLowerCase`: only `A`-`Z` is lowered. Every canonical name is ASCII.
- The HTML page, the Biblia API fetch, the DOM, `history.replaceState` and the probe loop in `step` (build.mjs:207-215). These are network and browser I/O. `step` is modelled up to the list it probes.
- Navigation.PathToRef: the `?ref=` and `#ref=` branches and `decodeURIComponent` are not modelled (they read browser state). `Number(s)` is modelled for decimal digit strings only: a segment such as `1e2` or `0x1F`, which `Number` accepts, counts here as not a number.
- Navigation.PathToRef: path segments are taken as decoded text, without percent-decoding.
- Text.NumeralValue: chapter and verse are unbounded naturals. JavaScript numbers are doubles, so `+s` loses precision above 2^53 (a verse such as `100000000000000000001` reads as `1e20`). The model does not capture that.
- Text.NatToString: a template literal prints numbers from `1e21` on in exponent notation. The model always prints decimal digits.
- Ingest.Inserted: an array cannot grow past 2^32 - 1 elements, so the `push` loops throw on a larger chapter or verse number. The model pads to any length.
- Ingest.Book.Put: the same unbounded padding, in place.
- Aliasing beyond the 66 books: the model proves that they are distinct objects and that a put changes one of them only. It does not model other references to their chapter arrays.
