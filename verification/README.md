# InstaGraph chart previewer: data-shaping core in Dafny

InstaGraph is an in-browser previewer: the user uploads a CSV or Excel
file, sees the rows in a paginated table, and draws one column as a bar,
line or pie chart. This project models the sequential logic behind that
screen and proves properties of it:

- **Upload decision** (`FileUpload`): the MIME allow-list, the parse
  outcome (an input, since parsing is not modelled), the empty-sheet check,
  column extraction from the first row, and the notification raised.
- **Page state** (`Index`): the `isNumeric` predicate, the numeric-column
  classifier behind the column dropdown (70% of the first ten rows), the load
  transition with its "any row" auto-selection, the reset transition, and
  what the page renders.
- **Chart data** (`Visualization`): the pie histogram over `String(cell)`,
  and the bar/line series of at most 50 `{index, name, <column>}` points.
- **Table** (`DataTable`): page count, page slice, previous/next clamping,
  pager visibility, and the text shown in each cell.

Two supporting modules define the JavaScript semantics these rely on. A third, `Basics`, holds `Option`, `Min`, `Max` and `Distinct`.

- `JsObjects` models plain objects: insertion order plus a property map.
  It also models ECMAScript's own-key order. Array-index keys come first in
  ascending numeric order, then the other keys in insertion order. This
  order decides the column list (`Object.keys`) and the pie slice order
  (`Object.entries`).
- `JsValues` models cells as JavaScript values (`undefined`, `null`,
  booleans, strings, numbers). It also defines the coercions `parseFloat`,
  `Number`, `isFinite` and `String`. Conversions between text and
  floating-point numbers are not defined: they are fields of a `Host`
  value, and every result holds for every host.

`PieAsWritten` models the pie tally exactly as the code builds it, on a
`{}` literal that inherits from `Object.prototype`. It proves where that
tally differs from the intended histogram (see Findings).

Where the code and its intent differ in small ways, the model follows the code. The one exception is the pie tally: the page's chart (`Visualization.ChartData`) uses the corrected histogram of the Findings, and `PieAsWritten` holds the code as written. The small differences the model keeps are:

- The pie slices are not in first-seen order. Categories that look like
  array indices ("3", "10") come first, in numeric order.
- Auto-selection checks truthiness (`if (firstNumColumn)`). If the first
  column with a numeric cell is named "", it is not selected and the previous
  selection stays.
- A table cell holding `null` does not render as text. `row[column].toString()`
  throws on it, so `DataTable.RenderCell` returns `None`.
- The table's current page survives a new upload (`DataTable.StrandedPage`).

## Model

| member | source | states |
|---|---|---|
| Index.IsNumeric | src/pages/Index.tsx:19-21 | `undefined`, `null` and booleans are never numeric; a number cell is numeric exactly when it is finite; a numeric cell parses to a number and converts to a finite one |
| Index.NumericCount | src/pages/Index.tsx:30-37 | the numeric count over the first n rows never exceeds n |
| Index.CountNumeric | src/pages/Index.tsx:29-37 | the counting loop yields the number of numeric cells under the column among the first min(10, n) rows |
| Index.FilterNumeric | src/pages/Index.tsx:27-41 | the kept columns are an order-preserving subsequence of the columns, and a column is kept exactly when it passes the 70% test |
| Index.NumericalColumns | src/pages/Index.tsx:24-42 | empty when there are no rows, whatever the columns; otherwise an order-preserving subsequence of the columns holding exactly those whose sample is at least 70% numeric |
| Index.ClassifyColumns | src/pages/Index.tsx:24-42 | the filter as written (early return, column loop, inner counting loop) computes the numerical columns |
| Index.ThresholdIsExact | src/pages/Index.tsx:40 | for up to ten sampled rows, any correctly rounded double quotient compared with the double 0.7 gives the same answer as the integer test 10·count ≥ 7·rows |
| Index.SevenOfTenQualifies | src/pages/Index.tsx:39-40 | with ten or more rows a column is listed exactly when at least 7 of its first 10 cells are numeric (7 of 10 in, 6 of 10 out) |
| Index.ClassificationIgnoresLaterRows | src/pages/Index.tsx:29-33 | two datasets that agree on their first min(10, n) rows get the same numerical columns; rows from index 10 on never matter |
| Index.FirstNumericColumn | src/pages/Index.tsx:52-54 | finds the first column, in column order, with a numeric cell in any row, and reports none exactly when no column has one |
| Index.HandleDataLoaded | src/pages/Index.tsx:45-63 | rows and columns are replaced together and the data tab is shown; the selection becomes the first column with a numeric cell in any row, unless that column is named "" or no such column exists, in which case it is unchanged |
| Index.HandleReset | src/pages/Index.tsx:66-70 | no rows, no columns, no selection, and so the empty state; chart type and tab are kept |
| Index.ResetAfterLoadsIsInitial | src/pages/Index.tsx:12-70 | loading two datasets and then resetting returns the state of a page that never loaded anything |
| Index.AutoSelectionMayPickNonNumericalColumn | src/pages/Index.tsx:27-57 | the "any row" selection rule and the 70% dropdown rule disagree: one numeric cell in two rows selects a column the dropdown does not list |
| Index.UploadReplacesOrKeeps | src/components/FileUpload.tsx:27-90 | on the page, an accepted upload applies the load transition to the parsed rows and the first row's keys and leaves data on screen; a rejected one leaves the state exactly as it was |
| Index.Render | src/pages/Index.tsx:82-129 | the empty state is shown exactly when there are no rows; otherwise the dropdown gets the numerical columns, the chart gets the payload for the selected column with no label column, and the placeholder replaces the chart exactly when no column is chosen or a pie's column has no defined cell |
| Index.RenderedPointsAreNumberedItems | src/pages/Index.tsx:125-129 | because the page passes no label column, point i of a bar or line chart is named "Item i+1" |
| Visualization.Bump | src/components/DataVisualization.tsx:45-51 | one row's step: `undefined`/`null` leave the tally alone; otherwise the text's count goes up by one (a new text is appended with count 1) and the total goes up by one |
| Visualization.Tally | src/components/DataVisualization.tsx:43-51 | the tally's keys are the distinct cell texts in first-seen order, each count is the number of rows with that text, and the counts add up to the number of rows whose cell is neither `undefined` nor `null` |
| Visualization.SlicesFor | src/components/DataVisualization.tsx:53-56 | one slice per key, in key order, carrying that key's count; the slice values add up to the counts' sum |
| Visualization.SlicesOfTally | src/components/DataVisualization.tsx:53-56 | the entries of a tally name its keys in own-key order, carry its counts and keep its total |
| Visualization.PieSlices | src/components/DataVisualization.tsx:42-57 | pie slices are named by the distinct cell texts in object-key order, no name twice, each value the number of rows showing that text and at least 1, every text that occurs has a slice, and the values add up to the number of defined cells |
| Visualization.SeriesValue | src/components/DataVisualization.tsx:70-75 | the plotted value is never NaN: `undefined` and a NaN conversion give 0, anything else gives `Number(cell)` (infinities pass through) |
| Visualization.PointName | src/components/DataVisualization.tsx:63-68 | with a non-empty label column whose cell is defined, the name is that cell's text; otherwise it is "Item " followed by the decimal numeral of index+1 |
| Visualization.SeriesPoint | src/components/DataVisualization.tsx:60-78 | a point has only the fields `index`, `name` and the data column; the data column holds the plotted value and, being written last, overrides `index` or `name` when it has that name; no field is NaN |
| Visualization.ChartData | src/components/DataVisualization.tsx:38-79 | an empty data column gives an empty payload; a pie gets the histogram; bar and line get min(n, 50) points, point i built from row i alone |
| Visualization.PlaceholderIff | src/components/DataVisualization.tsx:81 | the placeholder shows exactly when no column is chosen, when a pie's column has only `undefined`/`null` cells, or when a bar or line chart has no rows |
| Visualization.BarAndLineAgree | src/components/DataVisualization.tsx:59-78 | bar and line charts get the same payload |
| Visualization.SeriesIgnoresLaterRows | src/components/DataVisualization.tsx:60 | rows past the first 50 never change a bar or line payload |
| PieAsWritten.StepCorresponds | src/components/DataVisualization.tsx:45-51 | for a text that is not an `Object.prototype` member, the step on a plain `{}` matches the intended step |
| PieAsWritten.AsWrittenMatchesOffPrototype | src/components/DataVisualization.tsx:43-51 | when no cell text names an `Object.prototype` member, the tally as written holds the intended counts in the intended key order |
| PieAsWritten.PieAsWrittenMatchesOffPrototype | src/components/DataVisualization.tsx:43-56 | under the same condition the pie as written equals the intended pie, slice for slice |
| PieAsWritten.ProtoCategoryVanishes | src/components/DataVisualization.tsx:43-56 | a column whose one cell reads "__proto__" gets one slice in the intended pie and none as written |
| PieAsWritten.InheritedNameGetsText | src/components/DataVisualization.tsx:43-56 | a cell reading "toString" gets the count 1 in the intended pie but, as written, the function's source text followed by "1" |
| DataTable.TotalPages | src/components/DataTable.tsx:21-23 | the page count is the fewest pages of ten that hold every row |
| DataTable.JsSlice | src/components/DataTable.tsx:26 | `slice` gives the plain subsequence for in-range bounds; for every combination of bounds, a negative start or end counts back from the end, a start before the beginning is clamped to 0, an end past the end is clamped to the length, and a range whose normalised start is at or after its normalised end is empty |
| DataTable.PageRows | src/components/DataTable.tsx:24-26 | a page never shows more than ten rows, whatever the page number |
| DataTable.PageInRange | src/components/DataTable.tsx:23-26 | a page in range shows rows 10p to min(10p+10, n), between one and ten of them |
| DataTable.PagePastEndIsEmpty | src/components/DataTable.tsx:20-26 | a page at or past the page count shows no rows |
| DataTable.PagesReassembleData | src/components/DataTable.tsx:23-26 | the pages, concatenated in order, are the dataset: nothing lost, nothing repeated |
| DataTable.NavigationStaysInRange | src/components/DataTable.tsx:28-34 | from a page in range, next and previous stay in range and move by at most one page |
| DataTable.NavigationIffMoreThanOnePage | src/components/DataTable.tsx:63 | the pager is shown exactly when there are more than ten rows |
| DataTable.DisabledExactlyWhenStuck | src/components/DataTable.tsx:71-86 | on a page in range, previous is disabled exactly on page 0 and next exactly on the last page, that is, exactly when pressing them would not move |
| DataTable.StrandedPage | src/components/DataTable.tsx:20 | with the page kept across uploads, page 1 or later of a dataset of at most ten rows shows nothing and offers no pager |
| DataTable.RenderCell | src/components/DataTable.tsx:54 | `undefined` shows as the empty text, `null` makes the cell fail to render, any other value shows as `String(value)` |
| FileUpload.OnLoad | src/components/FileUpload.tsx:50-87 | a parse error is reported as such; an empty sheet is reported as empty; otherwise the rows and the first row's keys are handed over, followed by a success message |
| FileUpload.HandleFile | src/components/FileUpload.tsx:27-90 | no file does nothing; a type outside the allow-list is rejected with no read; an allowed type is read and then handled as above |
| FileUpload.LoadedExactlyWhenAccepted | src/components/FileUpload.tsx:27-90 | data reaches the page exactly when the type is allowed and the sheet has rows; the rows arrive unchanged, the columns are the first row's keys, and the success message counts those rows |
| FileUpload.ColumnsAreFirstRowKeys | src/components/FileUpload.tsx:71 | the columns are the first row's keys, each once, with non-index keys in insertion order |
| FileUpload.RejectedTypeIsNeverRead | src/components/FileUpload.tsx:39-46 | a disallowed type is never read and never loaded, whatever the file holds, and raises the invalid-type message |
| FileUpload.FailuresAreTheThreeRejections | src/components/FileUpload.tsx:39-86 | when a chosen file is not loaded, exactly one of bad type, empty sheet or parse error is reported, matching the cause |
| JsObjects.OwnKeys | src/components/FileUpload.tsx:71 | the key order is a permutation of the insertion order with array-index keys first in ascending numeric order and the other keys in insertion order |
| JsObjects.NatToString | src/components/DataVisualization.tsx:67 | the decimal text of n is a canonical numeral denoting n |
| JsObjects.NatToStringOfDigits | src/components/DataVisualization.tsx:67 | printing the value of a canonical numeral gives the numeral back |
| JsValues.CellAt | src/pages/Index.tsx:33 | a row without the column gives `undefined`; otherwise the stored cell |

## Left out

- Parsing. XLSX parsing, `FileReader` and `console.error` are not modelled. What parsing the first sheet would give is an input, `FileUpload.ParseOutcome`.
- Upload timing. The read completes before anything else happens. The handler sets no `onerror`, so a read that fails ends with no data loaded and no notification; `FileUpload.FailuresAreTheThreeRejections` covers only reads that complete. Overlapping uploads and the order of their callbacks are not modelled.
- Text/number conversions. `parseFloat` on text, `Number` on text and `String` on a finite number are fields of `JsValues.Host`. Every result holds for every host.
- Floating point. Finite numbers are the reals they denote. Double rounding appears only in `Index.ThresholdIsExact`, which argues that the integer threshold test is exact. Negative zero is not distinguished.
- Index.IsNumeric: for a text cell, whether it is numeric is left to the host's `parseFloat` and `Number`, so that case is stated only through those conversions.
- Inherited names in rows. `row[column]` on a row that lacks a column named after an `Object.prototype` member (say "constructor") would read the inherited member. `JsValues.CellAt` gives `undefined` there.
- Rendering. Recharts, colors, pie percentage labels, the tabs, toast wording, drag-and-drop state, the column dropdown and the empty-state screen are presentation and are not modelled.
- Visualization.ChartData: its pie branch, and so the chart in `Index.Render`, uses the corrected tally `Visualization.PieSlices` rather than the code's `{}` tally. For cells reading "__proto__" or another `Object.prototype` name the real page draws no slice or a slice with a text value; `PieAsWritten.PieAsWritten` models that, and `PieAsWritten.PieAsWrittenMatchesOffPrototype` shows the two agree on every other column.
- The label column. `Visualization.ChartData` models the `labelColumn` input, but the page never passes it: `Index.Render` passes `None`.
- Property deletion. It never happens in the previewer and is not modelled.

## Findings

| source | as written | input that shows it | evidently intended | confidence | as-written member | corrected member |
|---|---|---|---|---|---|---|
| src/components/DataVisualization.tsx:43-49 | the pie tally is a plain `{}`, so `aggregatedData[key]` finds `Object.prototype` members: "__proto__" reads an object and the write is ignored, and "toString", "valueOf" and the other inherited names start from a function, so `+ 1` concatenates text | one row whose pie-column cell is the text "__proto__" (no slice at all) or "toString" (a slice whose value is text) | count every distinct cell text, starting from zero, as for any other category | high; not executed | PieAsWritten.ProtoCategoryVanishes | Visualization.PieSlices |
