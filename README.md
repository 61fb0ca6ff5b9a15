# Résumé PDF layout engine, modelled in Dafny

The repository is a small web endpoint. It reads résumé fields from the query
string of a request and lays them out on one A4 page with a PDF library. The
core is the layout engine inside the request handler of `index.js`:

- `docText` (lines 20-29) sets the font and places one string. Right-aligned text is
  anchored at the right margin.
- `wrapText` (lines 31-48) is a greedy one-pass word wrapper. It splits on single
  spaces and keeps extending the line while the width of `line + " " + word` stays
  strictly below the limit.
- The handler body (lines 50-121) draws five sections in order and threads one
  vertical cursor, `yPos`, through them:
  - the identity block, at fixed heights;
  - the summary;
  - the comma-separated areas of expertise;
  - the experience entries `jobTitle1`, `jobTitle2`, …;
  - the education entries `degree1`, `degree2`, ….

  The two repeated groups are probed index by index and stop at the first absent
  or empty title.

The model has four modules:

- `Text` (`text.dfy`) holds the JavaScript string operations the engine relies on:
  - `split` on one character and its inverse `join`;
  - `trim`, with the ECMAScript whitespace set;
  - the decimal rendering of an index inside a template string.
- `Drawing` (`drawing.dfy`) holds the document. `Doc` is a class whose `placements`
  field grows by one placement record per `docText` call, and whose `font` field is
  the font that call leaves active.
- `Wrap` (`wrap.dfy`) holds `wrapText`:
  - the method keeps the source's loop;
  - a recursive function `Greedy` states the greedy rule;
  - the lemmas state what the lines are.
- `Layout` (`layout.dfy`) holds the engine:
  - a query is a `map<string, string>`, where an absent field is a missing key;
  - one function per section says what that section places and where;
  - one method per section draws it into a `Doc`;
  - `Render` builds the whole page;
  - lemmas relate the entry counts to the query and prove the page is drawn top
    to bottom.

Widths come from a `measure(font, string): int` parameter, which stands in for
the PDF library's font metrics. The model carries the active font into each
call of the wrapper. The summary is wrapped in the 14pt bold font that its
heading left active, but drawn in 10pt. Descriptions are wrapped in the 10pt
body font that the entry's dates line left active.

A field the code hands to `split`, to `wrapText` or to the document's `text`
makes the build throw when it is absent. That is modelled as a `Result` whose
error names the missing field. An absent company, university or date is
interpolated into a template string and prints as `null`; that is not an error.

Three details of the wrapper follow from the code:

- `"".split(' ')` is `[""]`, so `wrapText("")` returns the single line `""` and
  does not fail. `Wrap.WrapText` states this.
- The split is on the single character `' '` only, so consecutive spaces give
  empty words.
- Joining the lines with `' '` gives back exactly the input, `""` included.

## Model

| member | source | states |
|---|---|---|
| Text.Split | index.js:32 | the pieces number at least one and none contains the separator |
| Text.JoinSplit | index.js:32 | joining the pieces of `s.split(sep)` with `sep` gives back `s` |
| Text.SplitJoin | index.js:32 | splitting a join of separator-free pieces gives back the pieces |
| Text.SplitCount | index.js:70 | `s.split(sep)` has one more piece than `s` has separator characters |
| Text.Trim | index.js:72 | the result is a slice of the input, everything outside it is whitespace, and it neither starts nor ends with whitespace |
| Text.TrimmedAtUnique | index.js:72 | any two slices that both satisfy that description are equal, so the description fixes `trim` |
| Text.TrimIdempotent | index.js:72 | trimming twice is trimming once |
| Text.TrimKeepsOut | index.js:72 | trimming adds no character: a comma-free piece stays comma-free |
| Text.Decimal | index.js:82 | the index in `jobTitle${n}` prints as digits only, with no leading zero |
| Text.DecimalValue | index.js:82 | the digits of `Decimal(n)`, read most significant first, denote `n` |
| Text.DecimalInjective | index.js:82 | distinct numbers print differently |
| Text.DecimalLength | index.js:82 | a number of at least `10^len` prints with more than `len` digits |
| Drawing.AnchorX | index.js:24-28 | right-aligned text is anchored at `pageWidth - margin` whatever `x` is; any other alignment uses `x` |
| Drawing.AnchorAlign | index.js:24-28 | only right alignment reaches the document; everything else is drawn left-aligned |
| Drawing.Doc.Text | index.js:20-29 | the call leaves the given font active and appends exactly one placement at the anchor and height given |
| Wrap.WrapText | index.js:31-48 | the loop returns the greedy lines; there are 1 to `\|text.split(' ')\|` of them; `""` gives `[""]`; joining them with spaces gives the text back; every line of two or more words measures below the limit |
| Wrap.WrapLinesProperties | index.js:31-48 | the same round trip, line count and width bound, proved about the greedy specification |
| Wrap.WrapGroupsIsGreedy | index.js:36-46 | the greedy groups partition the words in order into non-empty lines; each extension fit, and each break was taken because the next word did not fit |
| Wrap.GreedyWrapUnique | index.js:36-46 | any partition with those properties is the greedy one, so the break rule determines the lines |
| Wrap.GreedyCount | index.js:36-46 | the greedy rule makes at least one line and at most one per word |
| Wrap.WideWordAlone | index.js:38-44 | word `i`, if at least the limit wide, is group `k` alone and line `k` verbatim, and the groups before it hold exactly the `i` words before it (for widening metrics) |
| Layout.KeyInjective | index.js:82-87 | distinct entry indices name distinct fields, so each probe reads its own entry |
| Layout.Get | index.js:51 | `searchParams.get` is present exactly when the key is in the query, with its value |
| Layout.FirstGapUnique | index.js:82 | the first absent-or-empty index is unique, so the number of entries drawn is fixed by the query |
| Layout.KeyIndexBound | index.js:82 | an index whose key is present is below `10^(longest key length)`, so each probing loop stops |
| Layout.ProbeBound | index.js:82 | one bound above every present index of a group |
| Layout.JobsUpToAt | index.js:81-102 | position `i` of the drawn entries is entry `i + 1`: the entries come in index order |
| Layout.DegreesUpToAt | index.js:109-121 | the same for education entries |
| Layout.ExpertiseItems | index.js:70 | there is one item per piece of `expertise.split(',')`, so one more than the number of commas |
| Layout.ExpertiseItemAt | index.js:70-72 | item `i` is piece `i` trimmed, and it holds no comma |
| Layout.ColumnAt | index.js:61-64 | line `i` of a column is placed at `y + 5*i` in the body font, with its prefix |
| Layout.ColumnStacked | index.js:61-64 | a column of `n` lines fills the band `[y, y + 5n)`, each line below the previous one |
| Layout.DrawColumn | index.js:61-64 | the `forEach` loop appends exactly the column and advances the cursor by 5 per line |
| Layout.DrawHeading | index.js:67-69 | a heading is drawn one gap below the cursor in 14pt bold; the cursor moves down 10 |
| Layout.DrawIdentity | index.js:50-55 | the five identity lines are drawn at heights 20, 30, 35, 40 and 45; it fails on the first absent field |
| Layout.DrawSummary | index.js:57-64 | draws the heading at 55 and the summary wrapped in the heading's font from height 60; fails exactly when the summary is absent |
| Layout.DrawExpertise | index.js:66-74 | draws the heading and one bullet per trimmed item at `margin + 5`; fails exactly when the expertise is absent |
| Layout.DrawJob | index.js:83-101 | draws the title, the dates line and the wrapped description as bullets; advances the cursor by `5 + 5 + 5*lines + 5`; fails exactly when the description is absent |
| Layout.JobBlockStacked | index.js:83-101 | an entry fills exactly the height it advances the cursor by |
| Layout.JobsBlockStacked | index.js:81-102 | the entries are stacked one below the other, and their total height is non-negative |
| Layout.DrawJobs | index.js:81-102 | the loop draws entries 1..n, where `n + 1` is the first absent or empty title; it fails at the first reached entry without a description: entries 1..n are complete and title `n + 1` is truthy |
| Layout.DrawExperience | index.js:76-102 | the heading, then exactly entries 1..n; the cursor ends `10 + height of those entries` lower |
| Layout.DrawDegree | index.js:111-119 | draws the degree and the dates line, and advances the cursor by 15 |
| Layout.DegreesBlockStacked | index.js:109-121 | the entries are stacked 15 apart |
| Layout.DrawDegrees | index.js:109-121 | the loop draws degrees 1..n, where `n + 1` is the first absent or empty degree |
| Layout.DrawEducation | index.js:104-121 | the heading, then exactly degrees 1..n; the cursor ends `10 + 15n` lower |
| Layout.DescriptionsPresentAtGap | index.js:81-102 | a query whose entries up to the first gap all have descriptions has one for every entry the loop reaches |
| Layout.MissingDescriptionUnique | index.js:82-94 | only one entry is the first reached without a description, so the field a failed build names is fixed by the query |
| Layout.MissingDescriptionFails | index.js:94 | an entry reached without a description means not every reached entry has one |
| Layout.Render | index.js:50-121 | succeeds exactly when the unconditional fields and every reached description are present; the page is then the five sections in order, with exactly the entries before each group's first gap; otherwise it names an absent field, which is the first absent scalar field or the description of the first entry the loop reaches without one |
| Layout.DocumentBand | index.js:60-121 | the page starts with the name at height 20; every later string is strictly lower than the one before; all lie above the final cursor |
| Layout.AfterOrder | index.js:60-121 | the cursor never moves up: it is at least 50 after the summary and does not decrease from section to section |
| Layout.StackedIsBand | index.js:60-121 | the one-string-at-a-time ordering implies the pairwise ordering |
| Layout.BandIsStacked | index.js:60-121 | the pairwise ordering implies the one-string-at-a-time ordering |

## Left out

- The fetch event listener, parsing the request URL, the response headers and
  serialising the PDF (index.js:3-5, 17, 123-128). These are transport I/O, and the
  query is a parameter.
- The PDF library: `setFontSize`, `setFont`, `text`, and the width computation
  `getStringUnitWidth * fontSize / scaleFactor`. Drawing appends a placement record,
  and widths come from the integer `measure` parameter. Floating-point widths are
  not modelled.
- The page size: `pageWidth` is an integer parameter rather than the A4 width in
  millimetres. `pageHeight` (index.js:14) is never read, and there is no pagination,
  so text drawn past the page bottom is not modelled.
- What the PDF library does with a `null` identity field: the model treats it as a
  failure of the build, like the other absent fields.
- The `async` handler and per-request isolation. The layout has no concurrency.
- Wrap.WideWordAlone: proved only for metrics that never shrink when a space and a
  word are added (`Widening`). An arbitrary `measure` could make a wide word fit
  once extended.
- Layout.Render: a build that fails does not say which strings were drawn before
  the failure. The source discards the document then too.
