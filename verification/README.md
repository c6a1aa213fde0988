# Fight-song charts: a verified model of the data behind the viewer

The fight-songs page loads a table of college fight songs (one row per school:
`school`, `conference`, `bpm`, `sec_duration` and nine Yes/No trope columns)
and shows five charts one at a time, with "next" and "previous" buttons.
This project models, in Dafny, everything in `graphs.js` that is data
rather than drawing:

- the completion callback: rows without a school are dropped; each row's
  trope count is the number of trope fields that are exactly `"Yes"`; rows
  are bucketed by `conference || 'Unknown'` in a dictionary filled row by
  row; each bucket gets an average; five chart descriptors are appended in a
  fixed order (modules `Rows`, `Buckets`, `Charts`, and
  `Page.Viewer.Complete`);
- what each chart derives from its descriptor before plotting: the scatter
  columns, the duration series per conference, the stacked 0/1 trope
  indicators, the bar of conference averages and the chord co-occurrence
  matrix (`Charts.Render`, and the `Charts.ChordMatrix` method with its
  triple loop over an `array2`);
- the next/previous index arithmetic (`Navigation`, `Page.Viewer`), both as
  written over JavaScript numbers and in the guarded form the model uses.

A field value is a `Cell`. This mirrors the CSV parser's dynamic typing:
a missing field, `null`, a string, a number or a boolean. A row is a map from
header name to `Cell`. Averages are exact pairs `Mean(sum, count)`.

The `tropeCounts` list of graphs.js:20 is computed but never read. It is
modelled as `Rows.TropeCounts` and used by the lemmas.

A diagonal cell (i, i) of the chord matrix counts each row whose trope i is
"Yes" once, because the loop at graphs.js:190-194 visits the pair (i, i) once
per row (`Charts.CoOccurWithItself`).

`Scenario` works a two-school table through the pipeline:
- the trope counts are [2, 1];
- there is one Big Ten bucket, with mean 3/2;
- the fight/victory cell is 1 and the fight/fight cell is 2.

## Model

| member | source | states |
|---|---|---|
| Rows.FilterRows | graphs.js:15 | the kept rows are no more than the input and every one has a truthy `school` |
| Rows.FilterRowsMembers | graphs.js:15 | a row is kept exactly when it is an input row with a truthy `school` |
| Rows.FilterRowsAppend | graphs.js:15 | filtering distributes over concatenation, so relative order is kept |
| Rows.FilterRowsKeepsSchooled | graphs.js:15 | rows that all have a school pass unchanged |
| Rows.FilterRowsIdempotent | graphs.js:15 | filtering twice is filtering once |
| Rows.Schools | graphs.js:16 | one school label per kept row, index for index |
| Rows.SchoolsOfRetainedRows | graphs.js:15-16 | every school label of the kept rows is truthy |
| Rows.CountYes | graphs.js:20 | the fold adds at most one per trope name |
| Rows.TropeCount | graphs.js:20 | a row's trope count lies in [0, 9] |
| Rows.CountYesIsCardinality | graphs.js:20 | over distinct names the fold counts exactly the names whose field is the string "Yes" |
| Rows.TropesAreDistinct | graphs.js:17 | the nine trope names are pairwise distinct |
| Rows.TropeCountIsCardinality | graphs.js:17-20 | a row's trope count is the number of trope names whose field is "Yes"; a missing field never counts |
| Rows.TropeCounts | graphs.js:20 | one count per row, in row order, each at most 9 |
| Rows.Sum | graphs.js:32 | the `reduce` total is at least every element and, when every element is a trope count (at most 9), at most 9 per element |
| Rows.SumOfTropeCounts | graphs.js:28-32 | summing the pushed counts is summing the trope count over the rows |
| Buckets.ConfKey | graphs.js:26 | the bucket key is truthy; it is "Unknown" exactly when the conference is falsy or is "Unknown"; otherwise it is the conference |
| Buckets.ConfKeys | graphs.js:26 | one bucket key per row, in row order |
| Buckets.Distinct | graphs.js:117 | `new Set`: no duplicates, the same elements as the input |
| Buckets.IndexOf | graphs.js:117 | the position of the first occurrence |
| Buckets.DistinctInFirstSeenOrder | graphs.js:117 | the distinct keys come in the order of their first occurrence |
| Buckets.Conferences | graphs.js:24-29 | the bucket keys have no duplicates and cover every row's key |
| Buckets.ConferenceHasRow | graphs.js:24-29 | no bucket exists without a row carrying its key |
| Buckets.Group | graphs.js:121-122 | a bucket only holds rows whose key it is |
| Buckets.GroupMembers | graphs.js:121-122 | a bucket holds exactly the rows whose key it is |
| Buckets.GroupAppend | graphs.js:121-122 | a bucket keeps its rows in their original order |
| Buckets.RowPositionInBucket | graphs.js:25-28 | each row sits in its own bucket right after the earlier rows with that key |
| Buckets.BucketsNonEmpty | graphs.js:27-28 | no bucket is empty |
| Buckets.FlattenPreservesSums | graphs.js:24-29 | any weight summed over the buckets equals the weight summed over the rows |
| Buckets.BucketsPartitionRows | graphs.js:24-29 | the buckets are a partition: together they hold every row as often as the input, and their sizes sum to the row count (with the helper `Rows.MultiplicityIsSum`, which counts a row's occurrences as a sum of indicators) |
| Buckets.ConfMapOf | graphs.js:24-29 | the dictionary's keys are exactly the bucket keys |
| Buckets.GroupByConference | graphs.js:24-29 | the loop builds insertion order equal to the first-seen keys, and each bucket equal to the trope counts of that key's rows, in row order |
| Buckets.PushKeepsConfMap | graphs.js:26-28 | one push step keeps the dictionary equal to the buckets of the rows seen so far |
| Buckets.Averages | graphs.js:30-33 | one entry per bucket, in insertion order, labelled by its key |
| Buckets.AveragesOfSameBuckets | graphs.js:30-33 | the averages depend only on the buckets' contents |
| Buckets.AveragesAreBucketMeans | graphs.js:30-33 | each average is its bucket's sum of trope counts over its non-zero size |
| Buckets.WeightedMeanIdentity | graphs.js:30-33 | bucket sums add up to the total trope count and bucket sizes to the row count |
| Charts.BuildGraphs | graphs.js:37-69 | exactly five descriptors in the fixed kind order, carrying the kept rows, the trope names, the schools and the bar labels and values aligned with the averages |
| Charts.Graphs | graphs.js:15-69 | the callback's whole data path: five descriptors in the fixed kind order; scatter, duration, stacked and chord charts share the same kept rows, no more than the parsed rows and each with a truthy school; the stacked and chord charts carry the nine trope names; the bar labels have no duplicates and include every kept row's conference key |
| Charts.BarLabelsAreConferences | graphs.js:58-60 | the bar labels are exactly the conference keys in first-seen order |
| Charts.Column | graphs.js:86-88 | one value per row, the row's field, in row order |
| Charts.DurationSeries | graphs.js:120-123 | one box per key, named by that key, with as many durations as the key's bucket has rows |
| Charts.AllDurationsOfBuckets | graphs.js:120-123 | the duration series, concatenated, are the durations of the bucket-ordered rows |
| Charts.Indicators | graphs.js:148 | one 0/1 value per row |
| Charts.StackedTraces | graphs.js:146-152 | one layer per trope |
| Charts.StackedColumnTotal | graphs.js:146-148 | a school's stacked column is as high as the number of tropes its row marks "Yes" |
| Charts.CoOccur | graphs.js:190-196 | a co-occurrence count never exceeds the number of rows |
| Charts.ChordMatrixOf | graphs.js:188-189 | the matrix is n by n |
| Charts.CoOccurSymmetric | graphs.js:193 | co-occurrence is symmetric in the two tropes |
| Charts.CoOccurWithItself | graphs.js:193 | a diagonal cell counts the rows with that trope, once each |
| Charts.CoOccurBounded | graphs.js:193 | a cell is bounded by the counts of both of its tropes |
| Charts.ChordMatrixProperties | graphs.js:188-196 | square, symmetric, diagonal equals rows with each trope, every cell at most both diagonals, diagonals at most the row count |
| Charts.ChordMatrix | graphs.js:188-196 | the triple loop fills an n by n array whose every cell is the co-occurrence count |
| Charts.Render | graphs.js:85-196 | the payload drawn is of the descriptor's own kind |
| Charts.RenderBoxes | graphs.js:114-123 | the duration chart draws one series per conference bucket of its rows |
| Charts.RenderStacked | graphs.js:145-152 | the stacked chart draws one layer per trope over the schools |
| Charts.RenderBar | graphs.js:164-168 | the bar chart draws the averages' labels and values, index for index |
| Charts.RenderChord | graphs.js:188-196 | the chord chart draws the co-occurrence matrix over the trope names |
| Charts.ScatterOnePointPerRow | graphs.js:86-88 | one point per kept row: bpm against duration, labelled by a truthy school |
| Charts.DurationSeriesNames | graphs.js:117-123 | one box per conference, no duplicates, in first-seen order |
| Charts.DurationSeriesPartition | graphs.js:115-123 | every row's duration lies in exactly one box, and the box lengths sum to the row count |
| Charts.DurationOfRowInItsBox | graphs.js:120-123 | a row's duration sits in its conference's box, after those of the earlier rows of that conference |
| Charts.StackedTotalsAreTropeCounts | graphs.js:146-148 | nine layers over the schools; every stacked column sums to that row's trope count |
| Charts.BarMatchesBuckets | graphs.js:58-60 | bar labels and values are aligned with the buckets; each value is its bucket's mean |
| Charts.BarAndBoxesAgree | graphs.js:58-60 | the bar chart and the duration chart list the same conferences in the same order |
| Charts.ChordOfLoadedRows | graphs.js:63-67 | the chord chart is the 9 by 9 matrix of the kept rows over the trope names |
| Navigation.JsAdd | graphs.js:245 | JavaScript addition: NaN if an operand is NaN, else the sum |
| Navigation.JsRem | graphs.js:245 | JavaScript remainder: NaN exactly for a NaN operand or a zero divisor; otherwise bounded by the divisor with the dividend's sign, and, for a non-negative dividend and positive divisor, the remainder itself |
| Navigation.NextAsWritten | graphs.js:245 | `(currentIndex + 1) % graphs.length` as written: NaN exactly when the index is NaN or there are no charts, else in range for any index of at least -1; with `ClickBeforeLoadGivesNaN`, `NaNIsAbsorbing` and `AsWrittenAgreesOnceLoaded` it is the as-written half of the finding |
| Navigation.PrevAsWritten | graphs.js:251 | `(currentIndex - 1 + graphs.length) % graphs.length` as written: NaN exactly when the index is NaN or there are no charts, else in range for any index of at least 1 - length; the same three lemmas relate it to `PrevIndex` |
| Navigation.ClickBeforeLoadGivesNaN | graphs.js:244-253 | with no charts, either click makes the index NaN |
| Navigation.NaNIsAbsorbing | graphs.js:244-253 | once NaN, the index stays NaN whatever is clicked |
| Navigation.NextIndex | graphs.js:245 | one further, wrapping to 0 after the last chart, always in range; unchanged while there are no charts |
| Navigation.PrevIndex | graphs.js:251 | one back, wrapping to the last chart before the first, always in range; unchanged while there are no charts |
| Navigation.AsWrittenAgreesOnceLoaded | graphs.js:244-253 | with charts and a valid index, the arithmetic as written gives exactly the same index |
| Navigation.PrevUndoesNext | graphs.js:244-253 | previous undoes next, and next undoes previous |
| Navigation.Advance | graphs.js:245 | after any number of clicks the index is in range |
| Navigation.AdvanceWithinRange | graphs.js:245 | k clicks before the end move the index k places |
| Navigation.AdvanceCompose | graphs.js:245 | a clicks then b clicks is a + b clicks |
| Navigation.FullCycleReturns | graphs.js:244-247 | as many clicks as there are charts bring the viewer back to where it started |
| Page.Viewer.constructor | graphs.js:2-3 | no charts, index 0 |
| Page.Viewer.Shown | graphs.js:79-80 | a chart is drawn exactly when the index names one, and of that chart's kind |
| Page.Viewer.Complete | graphs.js:14-72 | appends the five descriptors of the parsed rows, keeps the index, and draws a chart |
| Page.Viewer.Next | graphs.js:244-247 | moves to the next index and redraws; a chart is drawn exactly when charts are loaded |
| Page.Viewer.Prev | graphs.js:250-253 | moves to the previous index and redraws; a chart is drawn exactly when charts are loaded |
| Page.LoadedViewerCycle | graphs.js:37-69 | once loaded, k clicks from the start show the k-th chart kind; five clicks return to the start and one "previous" goes to the last chart |
| Scenario.TwoSchoolsKept | graphs.js:15-20 | two Big Ten schools are kept, with trope counts [2, 1] |
| Scenario.TwoSchoolsOneBucket | graphs.js:24-29 | both fall into one Big Ten bucket |
| Scenario.TwoRowsOneKey | graphs.js:117 | two rows with the same key give one bucket key |
| Scenario.TwoRowsOneGroup | graphs.js:121-122 | two rows with the same key both fall into its bucket |
| Scenario.AveragesOfOne | graphs.js:30-33 | a dictionary with one bucket yields one entry: its key and mean |
| Scenario.SingleBucketAverage | graphs.js:30-33 | with one conference, the only average is the mean over all rows |
| Scenario.TwoSchoolsAverage | graphs.js:30-33 | the Big Ten mean is 3/2 |
| Scenario.TwoSchoolsChord | graphs.js:188-196 | fight and victory co-occur once; fight occurs twice |

## Left out

- Parsing the CSV file, its download and the parser's type inference are not modelled. The model starts from the parsed rows as `Cell` maps.
- The DOM is not modelled: the event listeners, clearing the container and the button elements. `showGraph` is modelled only as the payload it computes.
- Plotly and d3 rendering are not modelled: the palette, marker styles, fonts, axis ranges (`Math.max(...) + 10`), chord layout geometry, arcs, ribbons and labels. They are drawing, not data.
- The captions are not modelled; they are static text.
- Buckets.Averages: keeps each average as the exact pair (sum, count) rather than the floating-point quotient `sum / length`. Rounding is not modelled.
- Numbers in fields are integers. Fractional `bpm` or `sec_duration` values and NaN values coming from the parser are not modelled. Durations are only carried through, never computed on.
- Buckets.ConfKey: keys buckets by the field value itself, as `new Set` does at graphs.js:117. The dictionary at graphs.js:24-29 keys by the value's string form instead. A number 12 and a string "12" would share one dictionary bucket but form two boxes, and the model does not capture that.
- `Object.entries` lists integer-like keys first, in ascending order. The model keeps plain insertion order.
- Keys inherited by a plain object, such as `constructor`, are not modelled. With such a key, `confMap[conf]` starts out truthy and is not an array.
- Page.Viewer.Next and Page.Viewer.Prev use the corrected index functions. The arithmetic as written is modelled separately in `Navigation` (see Findings).
- `showGraph` throws when there is no chart at the index. `Page.Viewer.Shown` models that case as `None`.

## Findings

| source | as written | input that shows it | evidently intended | confidence | as-written member | corrected member |
|---|---|---|---|---|---|---|
| graphs.js:244-253 | `currentIndex = (currentIndex + 1) % graphs.length` (and the "previous" form), with no guard for an empty list | click "next" or "previous" before the CSV has finished loading: `graphs.length` is 0, so the index becomes NaN; it stays NaN after loading, so no chart is ever shown again | leave the index unchanged while no chart is loaded | medium, not executed | Navigation.ClickBeforeLoadGivesNaN | Navigation.NextIndex |
