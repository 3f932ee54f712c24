/**
 The page: its state (dataset, columns, chart type, selected column, active
 tab), the numeric-column classifier that feeds the column dropdown, the
 load and reset transitions, and what the page renders from its state.
 */
module Index {
  import opened Basics
  import opened JsObjects
  import opened JsValues
  import opened Visualization
  import FileUpload

  /* ----- The numeric predicate ----- */

  /**
   `isNumeric(value)`: `parseFloat` yields a number and the global `isFinite`
   accepts the value. Missing cells, `null` and booleans never qualify
   (their text does not start with a digit); a number qualifies exactly when
   it is finite.
   */
  function IsNumeric(h: Host, c: Cell): (r: bool)
    ensures c.Absent? || c.Null? || c.Bool? ==> !r
    ensures c.Num? ==> (r <==> c.n.Finite?)
    ensures r ==> !ParseFloat(h, c).NaN? && ToNumber(h, c).Finite?
  {
    !ParseFloat(h, c).NaN? && IsFinite(h, c)
  }

  /* ----- The classifier ----- */

  /** Only this many leading rows are sampled. */
  const SampleSize: nat := 10

  /** `Math.min(10, data.length)`. */
  function RowsToCheck(data: seq<Row>): nat {
    Min(SampleSize, |data|)
  }

  /** The number of numeric cells under `column` among the first `n` rows. */
  function NumericCount(h: Host, data: seq<Row>, column: string, n: nat): (r: nat)
    requires n <= |data|
    ensures r <= n
    decreases n
  {
    if n == 0 then 0
    else NumericCount(h, data, column, n - 1) + (if IsNumeric(h, CellAt(data[n - 1], column)) then 1 else 0)
  }

  /**
   `numericCount / rowsToCheck >= 0.7`, stated on integers. With at most
   ten rows the double comparison and this integer test agree; see
   `ThresholdIsExact`.
   */
  predicate PassesThreshold(numericCount: nat, rowsToCheck: nat) {
    10 * numericCount >= 7 * rowsToCheck
  }

  /** The filter's test for one column of a non-empty dataset. */
  predicate IsNumericColumn(h: Host, data: seq<Row>, column: string)
    requires |data| > 0
  {
    PassesThreshold(NumericCount(h, data, column, RowsToCheck(data)), RowsToCheck(data))
  }

  /** `xs` is `ys` with some elements left out, order kept. */
  predicate IsSubsequence<T(==)>(xs: seq<T>, ys: seq<T>)
    decreases |ys|
  {
    |xs| == 0 ||
    (|ys| > 0 &&
     ((xs[|xs| - 1] == ys[|ys| - 1] && IsSubsequence(xs[..|xs| - 1], ys[..|ys| - 1])) ||
      IsSubsequence(xs, ys[..|ys| - 1])))
  }

  /** `columns.filter(...)` on a non-empty dataset. */
  function FilterNumeric(h: Host, data: seq<Row>, columns: seq<string>): (r: seq<string>)
    requires |data| > 0
    ensures IsSubsequence(r, columns)
    ensures forall c :: c in r <==> c in columns && IsNumericColumn(h, data, c)
    decreases |columns|
  {
    if |columns| == 0 then []
    else
      var prefix := columns[..|columns| - 1];
      var last := columns[|columns| - 1];
      assert columns == prefix + [last];
      var kept := FilterNumeric(h, data, prefix);
      if IsNumericColumn(h, data, last) then
        assert (kept + [last])[..|kept|] == kept;
        kept + [last]
      else
        kept
  }

  /**
   The memoised `numericalColumns`: no columns at all for an empty dataset;
   otherwise the columns, in their order, at least 70% of whose sampled
   cells are numeric.
   */
  function NumericalColumns(h: Host, data: seq<Row>, columns: seq<string>): (r: seq<string>)
    ensures |data| == 0 ==> r == []
    ensures IsSubsequence(r, columns)
    ensures forall c :: c in r <==> c in columns && |data| > 0 && IsNumericColumn(h, data, c)
  {
    if |data| == 0 then [] else FilterNumeric(h, data, columns)
  }

  /** The counting loop of the filter, as written. */
  method CountNumeric(h: Host, data: seq<Row>, column: string) returns (numericCount: nat)
    ensures numericCount == NumericCount(h, data, column, RowsToCheck(data))
    ensures numericCount <= RowsToCheck(data)
  {
    var rowsToCheck := Min(SampleSize, |data|);
    numericCount := 0;
    var i := 0;
    while i < rowsToCheck
      invariant 0 <= i <= rowsToCheck
      invariant numericCount == NumericCount(h, data, column, i)
    {
      var value := CellAt(data[i], column);
      if IsNumeric(h, value) {
        numericCount := numericCount + 1;
      }
      i := i + 1;
    }
  }

  /** The whole filter, as written: the early return, then a pass over the columns. */
  method ClassifyColumns(h: Host, data: seq<Row>, columns: seq<string>) returns (numerical: seq<string>)
    ensures numerical == NumericalColumns(h, data, columns)
  {
    if |data| == 0 {
      return [];
    }
    numerical := [];
    var j := 0;
    while j < |columns|
      invariant 0 <= j <= |columns|
      invariant numerical == FilterNumeric(h, data, columns[..j])
    {
      var numericCount := CountNumeric(h, data, columns[j]);
      assert columns[..j + 1][..j] == columns[..j];
      if 10 * numericCount >= 7 * RowsToCheck(data) {
        numerical := numerical + [columns[j]];
      }
      j := j + 1;
    }
    assert columns[..|columns|] == columns;
  }

  /** The literal `0.7` as a double: the double nearest to 7/10. */
  const Double07: real := 0.6999999999999999555910790149937383830547332763671875

  /** 2^-53, the relative error bound of a correctly rounded double operation. */
  const UnitRoundoff: real := 1.0 / 9007199254740992.0

  /**
   `q` is a possible value of `numericCount / rowsToCheck` in double
   arithmetic: within the rounding bound of the exact quotient, and the
   literal 0.7 itself when the exact quotient is 7/10 (both are the double
   nearest to 7/10).
   */
  predicate IsRoundedQuotient(numericCount: nat, rowsToCheck: nat, q: real)
    requires rowsToCheck > 0
  {
    var x := numericCount as real / rowsToCheck as real;
    x * (1.0 - UnitRoundoff) <= q <= x * (1.0 + UnitRoundoff) &&
    (x == 0.7 ==> q == Double07)
  }

  /**
   With at most ten sampled rows, the double comparison
   `numericCount / rowsToCheck >= 0.7` has the same outcome as
   `PassesThreshold`: no fraction with denominator up to ten lies near 0.7
   except 7/10 itself.
   */
  lemma ThresholdIsExact(numericCount: nat, rowsToCheck: nat, q: real)
    requires 1 <= rowsToCheck <= SampleSize && numericCount <= rowsToCheck
    requires IsRoundedQuotient(numericCount, rowsToCheck, q)
    ensures q >= Double07 <==> PassesThreshold(numericCount, rowsToCheck)
  {
    var x := numericCount as real / rowsToCheck as real;
    if 10 * numericCount == 7 * rowsToCheck {
      QuotientAtLeast(numericCount, rowsToCheck, 7, 10);
      QuotientAtMost(numericCount, rowsToCheck, 7, 10);
      assert x == 0.7;
    } else if 10 * numericCount > 7 * rowsToCheck {
      QuotientAtLeast(numericCount, rowsToCheck, 71, 100);
      RoundedDownStaysAbove(x, q);
    } else {
      QuotientAtMost(numericCount, rowsToCheck, 69, 100);
      RoundedUpStaysBelow(x, q);
    }
  }

  lemma QuotientAtLeast(c: nat, n: nat, a: nat, b: nat)
    requires n > 0 && b > 0 && b * c >= a * n
    ensures c as real / n as real >= a as real / b as real
  {
    var x := c as real / n as real;
    var y := a as real / b as real;
    assert x * n as real == c as real;
    assert y * b as real == a as real;
    assert (b * c) as real == b as real * c as real;
    assert (a * n) as real == a as real * n as real;
    assert b as real * (x * n as real) >= (y * b as real) * n as real;
    assert (x - y) * (b as real * n as real) >= 0.0;
  }

  lemma QuotientAtMost(c: nat, n: nat, a: nat, b: nat)
    requires n > 0 && b > 0 && b * c <= a * n
    ensures c as real / n as real <= a as real / b as real
  {
    var x := c as real / n as real;
    var y := a as real / b as real;
    assert x * n as real == c as real;
    assert y * b as real == a as real;
    assert (b * c) as real == b as real * c as real;
    assert (a * n) as real == a as real * n as real;
    assert b as real * (x * n as real) <= (y * b as real) * n as real;
    assert (x - y) * (b as real * n as real) <= 0.0;
  }

  lemma RoundedDownStaysAbove(x: real, q: real)
    requires x >= 71.0 / 100.0 && x * (1.0 - UnitRoundoff) <= q
    ensures q > Double07
  {
    assert x * (1.0 - UnitRoundoff) >= 0.71 * (1.0 - UnitRoundoff);
  }

  lemma RoundedUpStaysBelow(x: real, q: real)
    requires 0.0 <= x <= 69.0 / 100.0 && q <= x * (1.0 + UnitRoundoff)
    ensures q < Double07
  {
    assert x * (1.0 + UnitRoundoff) <= 0.69 * (1.0 + UnitRoundoff);
  }

  lemma {:induction false} NumericCountSeesOnlyPrefix(h: Host, data: seq<Row>, data': seq<Row>, column: string, n: nat)
    requires n <= |data| && n <= |data'|
    requires data[..n] == data'[..n]
    ensures NumericCount(h, data, column, n) == NumericCount(h, data', column, n)
    decreases n
  {
    if n > 0 {
      assert data[..n - 1] == data[..n][..n - 1] == data'[..n][..n - 1] == data'[..n - 1];
      assert data[n - 1] == data[..n][n - 1] == data'[n - 1];
      NumericCountSeesOnlyPrefix(h, data, data', column, n - 1);
    }
  }

  lemma {:induction false} FilterSeesOnlySample(h: Host, data: seq<Row>, data': seq<Row>, columns: seq<string>)
    requires |data| > 0 && RowsToCheck(data) == RowsToCheck(data')
    requires data[..RowsToCheck(data)] == data'[..RowsToCheck(data')]
    ensures FilterNumeric(h, data, columns) == FilterNumeric(h, data', columns)
    decreases |columns|
  {
    if |columns| > 0 {
      FilterSeesOnlySample(h, data, data', columns[..|columns| - 1]);
      NumericCountSeesOnlyPrefix(h, data, data', columns[|columns| - 1], RowsToCheck(data));
    }
  }

  /**
   Only the first ten rows are classified: two datasets that agree on their
   sample (in particular, one changed only at rows 10 and beyond) get the
   same numeric columns.
   */
  lemma ClassificationIgnoresLaterRows(h: Host, data: seq<Row>, data': seq<Row>, columns: seq<string>)
    requires RowsToCheck(data) == RowsToCheck(data')
    requires data[..RowsToCheck(data)] == data'[..RowsToCheck(data')]
    ensures NumericalColumns(h, data, columns) == NumericalColumns(h, data', columns)
  {
    if |data| > 0 {
      FilterSeesOnlySample(h, data, data', columns);
    }
  }

  /** The inclusive 70% boundary: 7 numeric cells of 10 qualify, 6 of 10 do not. */
  lemma SevenOfTenQualifies(h: Host, data: seq<Row>, columns: seq<string>, column: string)
    requires |data| >= SampleSize && column in columns
    ensures NumericCount(h, data, column, SampleSize) >= 7 <==> column in NumericalColumns(h, data, columns)
  {
  }

  /* ----- Page state ----- */

  /** The page's `useState` hooks. */
  datatype AppState = AppState(
    data: seq<Row>,
    columns: seq<string>,
    chartType: ChartType,
    selectedColumn: string,
    activeTab: string)

  /** The state on first render. */
  const Initial: AppState := AppState([], [], Bar, "", "data")

  /** `noData`: the empty-state screen is shown instead of the table and chart. */
  predicate NoData(s: AppState) {
    |s.data| == 0
  }

  /** `data.some(row => isNumeric(row[column]))`: some row, among all rows, has a numeric cell. */
  predicate HasNumericRow(h: Host, data: seq<Row>, column: string) {
    exists i :: 0 <= i < |data| && IsNumeric(h, CellAt(data[i], column))
  }

  /** `columns.find(...)`: the position of the first column with a numeric cell in any row. */
  function FirstNumericColumn(h: Host, data: seq<Row>, columns: seq<string>): (r: Option<nat>)
    ensures r.Some? ==> r.value < |columns| && HasNumericRow(h, data, columns[r.value])
    ensures r.Some? ==> forall j :: 0 <= j < r.value ==> !HasNumericRow(h, data, columns[j])
    ensures r.None? ==> forall j :: 0 <= j < |columns| ==> !HasNumericRow(h, data, columns[j])
    decreases |columns|
  {
    if |columns| == 0 then None
    else if HasNumericRow(h, data, columns[0]) then Some(0)
    else
      match FirstNumericColumn(h, data, columns[1..])
      case Some(i) => Some(i + 1)
      case None => None
  }

  /**
   `handleDataLoaded`: replaces rows and columns together, switches to the
   data tab, and selects the first column, in column order, that has a
   numeric cell in any row. The test `if (firstNumColumn)` is truthiness,
   so a first such column named "" is not selected. Otherwise the previous
   selection stays.
   */
  function HandleDataLoaded(h: Host, s: AppState, newData: seq<Row>, newColumns: seq<string>): (s': AppState)
    ensures s'.data == newData && s'.columns == newColumns
    ensures s'.activeTab == "data" && s'.chartType == s.chartType
    ensures forall i ::
              (0 <= i < |newColumns| && HasNumericRow(h, newData, newColumns[i]) &&
               (forall j :: 0 <= j < i ==> !HasNumericRow(h, newData, newColumns[j]))) ==>
              s'.selectedColumn == (if newColumns[i] == "" then s.selectedColumn else newColumns[i])
    ensures (forall j :: 0 <= j < |newColumns| ==> !HasNumericRow(h, newData, newColumns[j])) ==>
              s'.selectedColumn == s.selectedColumn
  {
    var selected :=
      if |newColumns| > 0 then
        match FirstNumericColumn(h, newData, newColumns)
        case Some(i) => if newColumns[i] != "" then newColumns[i] else s.selectedColumn
        case None => s.selectedColumn
      else s.selectedColumn;
    AppState(newData, newColumns, s.chartType, selected, "data")
  }

  /** `handleReset`: no rows, no columns, no selection; chart type and tab are kept. */
  function HandleReset(s: AppState): (s': AppState)
    ensures s'.data == [] && s'.columns == [] && s'.selectedColumn == ""
    ensures s'.chartType == s.chartType && s'.activeTab == s.activeTab
    ensures NoData(s')
  {
    s.(data := [], columns := [], selectedColumn := "")
  }

  /** Loading two datasets and then resetting gives back the state of a page that never loaded anything. */
  lemma ResetAfterLoadsIsInitial(h: Host, a: seq<Row>, aColumns: seq<string>, b: seq<Row>, bColumns: seq<string>)
    ensures HandleReset(HandleDataLoaded(h, HandleDataLoaded(h, Initial, a, aColumns), b, bColumns)) == Initial
  {
  }

  /**
   Auto-selection and the dropdown use different rules: a column with one
   numeric cell in two rows is selected on load, yet it is not offered as
   a numeric column.
   */
  lemma AutoSelectionMayPickNonNumericalColumn(h: Host)
    ensures var data := [JsObject(["a"], map["a" := Num(Finite(1.0))]), JsObject(["a"], map["a" := Null])];
      var s := HandleDataLoaded(h, Initial, data, ["a"]);
      s.selectedColumn == "a" && "a" !in NumericalColumns(h, s.data, s.columns)
  {
    var data := [JsObject(["a"], map["a" := Num(Finite(1.0))]), JsObject(["a"], map["a" := Null])];
    assert IsNumeric(h, CellAt(data[0], "a"));
    assert HasNumericRow(h, data, "a");
    assert NumericCount(h, data, "a", 2) == 1 by {
      assert !IsNumeric(h, CellAt(data[1], "a"));
      assert NumericCount(h, data, "a", 1) == 1;
    }
  }

  /* ----- Upload wiring ----- */

  /** Runs the page's side of the upload effects: every `onDataLoaded` call is `handleDataLoaded`. */
  function ApplyEffects(h: Host, s: AppState, effects: seq<FileUpload.Effect>): AppState
    decreases |effects|
  {
    if |effects| == 0 then s
    else
      var s1 := if effects[0].DataLoaded? then HandleDataLoaded(h, s, effects[0].data, effects[0].columns) else s;
      ApplyEffects(h, s1, effects[1..])
  }

  /**
   An upload either replaces the dataset with the parsed rows and the first
   row's keys, or, when rejected for its type, an empty sheet or a parse
   error, leaves the page state exactly as it was.
   */
  lemma UploadReplacesOrKeeps(h: Host, s: AppState, file: Option<FileUpload.FileInfo>, parse: FileUpload.ParseOutcome)
    ensures var s' := ApplyEffects(h, s, FileUpload.HandleFile(file, parse));
      if file.Some? && FileUpload.IsAllowedType(file.value.mimeType) && parse.Sheet? && |parse.rows| > 0 then
        s' == HandleDataLoaded(h, s, parse.rows, parse.rows[0].Keys()) && !NoData(s')
      else
        s' == s
  {
    if file.Some? && FileUpload.IsAllowedType(file.value.mimeType) && parse.Sheet? && |parse.rows| > 0 {
      AcceptedUploadLoads(h, s, parse.rows);
    } else {
      var effects := FileUpload.HandleFile(file, parse);
      assert forall i :: 0 <= i < |effects| ==> !effects[i].DataLoaded?;
      ApplyPassive(h, s, effects, |effects|);
      assert effects[|effects|..] == [];
    }
  }

  lemma AcceptedUploadLoads(h: Host, s: AppState, rows: seq<Row>)
    requires |rows| > 0
    ensures var effects := [FileUpload.ReadStarted] + FileUpload.OnLoad(FileUpload.Sheet(rows));
      ApplyEffects(h, s, effects) == HandleDataLoaded(h, s, rows, rows[0].Keys())
  {
    var loaded := FileUpload.DataLoaded(rows, rows[0].Keys());
    var done := FileUpload.Notify(FileUpload.Uploaded(|rows|));
    var effects := [FileUpload.ReadStarted] + FileUpload.OnLoad(FileUpload.Sheet(rows));
    assert effects == [FileUpload.ReadStarted, loaded, done];
    var s' := HandleDataLoaded(h, s, rows, rows[0].Keys());
    assert effects[1..] == [loaded, done];
    assert ApplyEffects(h, s, effects) == ApplyEffects(h, s, [loaded, done]);
    assert [loaded, done][1..] == [done];
    assert ApplyEffects(h, s, [loaded, done]) == ApplyEffects(h, s', [done]);
    assert [done][1..] == [];
    assert ApplyEffects(h, s', [done]) == ApplyEffects(h, s', []);
  }

  /** Effects that hand over no data leave the state alone. */
  lemma {:induction false} ApplyPassive(h: Host, s: AppState, effects: seq<FileUpload.Effect>, n: nat)
    requires n <= |effects|
    requires forall i :: 0 <= i < n ==> !effects[i].DataLoaded?
    ensures ApplyEffects(h, s, effects) == ApplyEffects(h, s, effects[n..])
    decreases n
  {
    if n > 0 {
      ApplyPassive(h, s, effects[1..], n - 1);
      assert effects[1..][n - 1..] == effects[n..];
    }
  }

  /* ----- What the page renders ----- */

  /** The page body: the empty state, or the dropdown's numeric columns and the chart payload. */
  datatype View =
    | EmptyStateView
    | DatasetView(numericalColumns: seq<string>, chart: Payload, placeholder: bool)

  /**
   The chart gets no label column from the page. With rows loaded, the
   placeholder replaces the chart only when no column is chosen or a pie's
   column has no defined cell.
   */
  function Render(h: Host, s: AppState): (v: View)
    ensures v.EmptyStateView? <==> NoData(s)
    ensures v.DatasetView? ==>
              v.numericalColumns == NumericalColumns(h, s.data, s.columns) &&
              v.chart == ChartData(h, s.data, s.chartType, s.selectedColumn, None)
    ensures v.DatasetView? ==> v.placeholder == ShowsPlaceholder(s.selectedColumn, v.chart)
    ensures v.DatasetView? ==>
              (v.placeholder <==> s.selectedColumn == "" || (s.chartType == Pie && DefinedCount(s.data, s.selectedColumn) == 0))
  {
    if NoData(s) then EmptyStateView
    else
      var chart := ChartData(h, s.data, s.chartType, s.selectedColumn, None);
      PlaceholderIff(h, s.data, s.chartType, s.selectedColumn, None);
      DatasetView(NumericalColumns(h, s.data, s.columns), chart, ShowsPlaceholder(s.selectedColumn, chart))
  }

  /** Because the page passes no label column, every bar or line point is named "Item 1", "Item 2", ... */
  lemma RenderedPointsAreNumberedItems(h: Host, s: AppState, i: nat)
    requires !NoData(s) && s.chartType != Pie && s.selectedColumn != "" && s.selectedColumn != "name"
    requires i < Min(|s.data|, SeriesLimit)
    ensures Render(h, s).chart.points[i].Get("name") == Some(Str(ItemLabel(i)))
  {
  }
}
