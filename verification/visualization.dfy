/**
 The chart data shaper of the previewer's visualization component: turns the
 loaded rows, the chosen chart type and the chosen data column into the
 array the charting library draws.

 - pie: a frequency histogram of `String(row[column])` over every row whose
   cell is neither `undefined` nor `null`, enumerated in object-key order;
 - bar and line: one point `{index, name, [column]}` for each of the first
   50 rows, with a missing or non-numeric value drawn as 0.
 */
module Visualization {
  import opened Basics
  import opened JsObjects
  import opened JsValues

  /** The chart kinds offered by the chart selector. */
  datatype ChartType = Bar | Line | Pie

  /** One pie slice, `{name, value}`. */
  datatype PieSlice = PieSlice(name: string, value: nat)

  /** The shaped array, tagged with the kind of chart it feeds. */
  datatype Payload = PieData(slices: seq<PieSlice>) | SeriesData(points: seq<JsObject<Cell>>) {
    function Length(): nat {
      match this
      case PieData(s) => |s|
      case SeriesData(p) => |p|
    }
  }

  /** Bar and line charts draw at most this many leading rows. */
  const SeriesLimit: nat := 50

  /* ----- Reference definitions of the pie histogram ----- */

  /** A cell the pie counts: neither `undefined` nor `null`. */
  predicate Counted(c: Cell) {
    !c.Absent? && !c.Null?
  }

  /** The number of rows whose cell under `column` is counted. */
  function DefinedCount(rows: seq<Row>, column: string): nat
    decreases |rows|
  {
    if |rows| == 0 then 0
    else DefinedCount(rows[..|rows| - 1], column) + (if Counted(CellAt(rows[|rows| - 1], column)) then 1 else 0)
  }

  /** The number of rows whose counted cell under `column` prints as `key`. */
  function KeyCount(h: Host, rows: seq<Row>, column: string, key: string): nat
    decreases |rows|
  {
    if |rows| == 0 then 0
    else
      var c := CellAt(rows[|rows| - 1], column);
      KeyCount(h, rows[..|rows| - 1], column, key) + (if Counted(c) && ToText(h, c) == key then 1 else 0)
  }

  /** The distinct texts of the counted cells under `column`, in order of first appearance. */
  function FirstSeenKeys(h: Host, rows: seq<Row>, column: string): seq<string>
    decreases |rows|
  {
    if |rows| == 0 then []
    else
      var seen := FirstSeenKeys(h, rows[..|rows| - 1], column);
      var c := CellAt(rows[|rows| - 1], column);
      if Counted(c) && ToText(h, c) !in seen then seen + [ToText(h, c)] else seen
  }

  /** The sum of `counts` over `keys`. */
  function SumOf<K>(keys: seq<K>, counts: map<K, nat>): nat
    requires forall k :: k in keys ==> k in counts
    decreases |keys|
  {
    if |keys| == 0 then 0 else counts[keys[0]] + SumOf(keys[1..], counts)
  }

  lemma {:induction false} SumOfConcat<K>(a: seq<K>, b: seq<K>, counts: map<K, nat>)
    requires forall k :: k in a + b ==> k in counts
    ensures SumOf(a + b, counts) == SumOf(a, counts) + SumOf(b, counts)
    decreases |a|
  {
    if |a| == 0 {
      assert a + b == b;
    } else {
      assert (a + b)[1..] == a[1..] + b;
      SumOfConcat(a[1..], b, counts);
    }
  }

  /** Changing the count of a key that is not listed leaves the sum alone. */
  lemma {:induction false} SumOfUnlisted<K>(keys: seq<K>, counts: map<K, nat>, k: K, v: nat)
    requires forall x :: x in keys ==> x in counts
    requires k !in keys
    ensures SumOf(keys, counts[k := v]) == SumOf(keys, counts)
    decreases |keys|
  {
    if |keys| > 0 {
      SumOfUnlisted(keys[1..], counts, k, v);
    }
  }

  /** Incrementing the count of a key listed exactly once raises the sum by one. */
  lemma {:induction false} SumOfIncrement<K>(keys: seq<K>, counts: map<K, nat>, k: K)
    requires forall x :: x in keys ==> x in counts
    requires Distinct(keys) && k in keys
    ensures SumOf(keys, counts[k := counts[k] + 1]) == SumOf(keys, counts) + 1
    decreases |keys|
  {
    if keys[0] == k {
      assert k !in keys[1..];
      SumOfUnlisted(keys[1..], counts, k, counts[k] + 1);
    } else {
      SumOfIncrement(keys[1..], counts, k);
    }
  }

  /** Removing the key at position `i` removes its count from the sum. */
  lemma SumOfRemove<K>(ys: seq<K>, i: nat, counts: map<K, nat>)
    requires i < |ys|
    requires forall k :: k in ys ==> k in counts
    ensures SumOf(ys, counts) == counts[ys[i]] + SumOf(ys[..i] + ys[i + 1..], counts)
  {
    assert ys == ys[..i] + ([ys[i]] + ys[i + 1..]);
    SumOfConcat(ys[..i], [ys[i]] + ys[i + 1..], counts);
    SumOfConcat(ys[..i], ys[i + 1..], counts);
    assert ([ys[i]] + ys[i + 1..])[1..] == ys[i + 1..];
  }

  lemma MultisetRemove<T>(ys: seq<T>, i: nat)
    requires i < |ys|
    ensures multiset(ys[..i] + ys[i + 1..]) == multiset(ys) - multiset{ys[i]}
  {
    assert ys == ys[..i] + [ys[i]] + ys[i + 1..];
  }

  /** Removing an element adds no new members. */
  lemma RemoveKeepsMembers<T>(ys: seq<T>, i: nat)
    requires i < |ys|
    ensures forall k :: k in ys[..i] + ys[i + 1..] ==> k in ys
  {
    forall k | k in ys[..i] + ys[i + 1..]
      ensures k in ys
    {
      var j :| 0 <= j < |ys[..i] + ys[i + 1..]| && (ys[..i] + ys[i + 1..])[j] == k;
      assert k == (if j < i then ys[j] else ys[j + 1]);
    }
  }

  /** The sum does not depend on the order of the keys. */
  lemma {:induction false} SumOfPermutation<K>(xs: seq<K>, ys: seq<K>, counts: map<K, nat>)
    requires multiset(xs) == multiset(ys)
    requires forall k :: k in xs ==> k in counts
    requires forall k :: k in ys ==> k in counts
    ensures SumOf(xs, counts) == SumOf(ys, counts)
    decreases |xs|
  {
    if |xs| == 0 {
      assert |ys| == |multiset(ys)| == 0;
    } else {
      var x := xs[0];
      assert x in multiset(ys) by {
        assert x in multiset(xs);
      }
      var i :| 0 <= i < |ys| && ys[i] == x;
      var rest := ys[..i] + ys[i + 1..];
      SumOfRemove(ys, i, counts);
      MultisetRemove(ys, i);
      MultisetRemove(xs, 0);
      assert xs[..0] + xs[1..] == xs[1..];
      assert multiset(xs[1..]) == multiset(rest);
      RemoveKeepsMembers(ys, i);
      RemoveKeepsMembers(xs, 0);
      SumOfPermutation(xs[1..], rest, counts);
    }
  }

  /* ----- Pie ----- */

  /**
   One step of the `forEach`: for a counted cell,
   `aggregatedData[key] = (aggregatedData[key] || 0) + 1` with
   `key = String(cell)`; other cells leave the tally alone.
   */
  function Bump(h: Host, prev: JsObject<nat>, c: Cell): (t: JsObject<nat>)
    requires prev.Valid()
    ensures t.Valid()
    ensures !Counted(c) ==> t == prev
    ensures Counted(c) ==> t.order == (if ToText(h, c) in prev.order then prev.order else prev.order + [ToText(h, c)])
    ensures forall k :: k in t.props <==> k in prev.props || (Counted(c) && k == ToText(h, c))
    ensures forall k :: k in t.props ==>
              t.props[k] == (if k in prev.props then prev.props[k] else 0) + (if Counted(c) && ToText(h, c) == k then 1 else 0)
    ensures SumOf(t.order, t.props) == SumOf(prev.order, prev.props) + (if Counted(c) then 1 else 0)
  {
    if !Counted(c) then prev
    else
      var key := ToText(h, c);
      var n := match prev.Get(key) case Some(m) => m case None => 0;
      var t := prev.Put(key, n + 1);
      assert t.props == prev.props[key := n + 1];
      assert SumOf(t.order, t.props) == SumOf(prev.order, prev.props) + 1 by {
        if key in prev.props {
          SumOfIncrement(prev.order, prev.props, key);
        } else {
          SumOfUnlisted(prev.order, prev.props, key, 1);
          SumOfConcat(prev.order, [key], t.props);
        }
      }
      t
  }

  /**
   The tally object built by the `forEach` over all rows. It is a correct
   histogram: its keys are the distinct cell texts in first-seen order, each
   mapped to the number of rows showing that text, and the counts add up to
   the number of counted cells.
   */
  function Tally(h: Host, rows: seq<Row>, column: string): (t: JsObject<nat>)
    ensures t.Valid()
    ensures t.order == FirstSeenKeys(h, rows, column)
    ensures forall k :: k in t.props ==> t.props[k] == KeyCount(h, rows, column, k) && t.props[k] >= 1
    ensures forall k :: KeyCount(h, rows, column, k) > 0 ==> k in t.props
    ensures SumOf(t.order, t.props) == DefinedCount(rows, column)
    decreases |rows|
  {
    if |rows| == 0 then EmptyObject()
    else
      var prev := Tally(h, rows[..|rows| - 1], column);
      Bump(h, prev, CellAt(rows[|rows| - 1], column))
  }

  /** `Object.entries(tally).map(([name, value]) => ({name, value}))`, given the key order. */
  function SlicesFor(keys: seq<string>, counts: map<string, nat>): (r: seq<PieSlice>)
    requires forall k :: k in keys ==> k in counts
    ensures |r| == |keys|
    ensures forall i :: 0 <= i < |r| ==> r[i].name == keys[i] && r[i].value == counts[keys[i]]
    ensures Names(r) == keys
    ensures Total(r) == SumOf(keys, counts)
    decreases |keys|
  {
    if |keys| == 0 then [] else [PieSlice(keys[0], counts[keys[0]])] + SlicesFor(keys[1..], counts)
  }

  /** The slices of a tally object name its keys in key order, carry its counts, and add up to its sum. */
  lemma SlicesOfTally(t: JsObject<nat>)
    requires t.Valid()
    ensures forall k :: k in t.Keys() ==> k in t.props
    ensures var r := SlicesFor(t.Keys(), t.props);
      && Names(r) == t.Keys()
      && Total(r) == SumOf(t.order, t.props)
      && forall i :: 0 <= i < |r| ==> r[i].name in t.props && r[i].value == t.props[r[i].name]
  {
    var keys := t.Keys();
    assert multiset(t.order) == multiset(keys);
    assert forall k :: k in keys ==> k in t.props;
    assert forall k :: k in t.order ==> k in t.props;
    SumOfPermutation(t.order, keys, t.props);
    var r := SlicesFor(keys, t.props);
    assert Total(r) == SumOf(keys, t.props);
    forall i | 0 <= i < |r|
      ensures r[i].name in t.props && r[i].value == t.props[r[i].name]
    {
      assert r[i].name == keys[i];
    }
  }

  /** The sum of the slice values. */
  function Total(slices: seq<PieSlice>): nat
    decreases |slices|
  {
    if |slices| == 0 then 0 else slices[0].value + Total(slices[1..])
  }

  function Names(slices: seq<PieSlice>): (r: seq<string>)
    ensures |r| == |slices| && forall i :: 0 <= i < |r| ==> r[i] == slices[i].name
  {
    seq(|slices|, i requires 0 <= i < |slices| => slices[i].name)
  }

  /**
   The pie payload. One slice per distinct cell text, no text twice, each
   value the number of rows showing that text; the values add up to the
   number of rows whose cell is neither `undefined` nor `null`; slice order
   is object-key order over first appearance.
   */
  function PieSlices(h: Host, rows: seq<Row>, column: string): (r: seq<PieSlice>)
    ensures Names(r) == OwnKeys(FirstSeenKeys(h, rows, column))
    ensures Distinct(Names(r))
    ensures forall i :: 0 <= i < |r| ==> r[i].value == KeyCount(h, rows, column, r[i].name) && r[i].value >= 1
    ensures forall k :: KeyCount(h, rows, column, k) > 0 ==> k in Names(r)
    ensures Total(r) == DefinedCount(rows, column)
  {
    var t := Tally(h, rows, column);
    SlicesOfTally(t);
    SlicesFor(t.Keys(), t.props)
  }

  /* ----- Bar and line ----- */

  /** The value drawn for a cell: `Number(cell)`, with `undefined` and NaN drawn as 0. */
  function SeriesValue(h: Host, c: Cell): (v: JsNumber)
    ensures !v.NaN?
    ensures ToNumber(h, c).NaN? ==> v == Finite(0.0)
    ensures !ToNumber(h, c).NaN? ==> v == ToNumber(h, c)
  {
    if c.Absent? then Finite(0.0)
    else
      var n := ToNumber(h, c);
      if n.NaN? then Finite(0.0) else n
  }

  /** The synthetic label of the point at 0-based position `index`. */
  function ItemLabel(index: nat): string {
    "Item " + NatToString(index + 1)
  }

  /** The point's `name`: the label column's text when a label column is given and the row has it. */
  function PointName(h: Host, item: Row, index: nat, labelColumn: Option<string>): (name: string)
    ensures labelColumn.Some? && labelColumn.value != "" && !CellAt(item, labelColumn.value).Absent? ==>
              name == ToText(h, CellAt(item, labelColumn.value))
    ensures labelColumn.None? || labelColumn.value == "" || CellAt(item, labelColumn.value).Absent? ==>
              |name| > 5 && name[..5] == "Item " && IsCanonicalNumeral(name[5..]) && DigitsValue(name[5..]) == index + 1
  {
    if labelColumn.Some? && labelColumn.value != "" && !CellAt(item, labelColumn.value).Absent? then
      ToText(h, CellAt(item, labelColumn.value))
    else
      var text := ItemLabel(index);
      assert text[5..] == NatToString(index + 1);
      text
  }

  /**
   The point for the row at 0-based position `index`: `{index: index + 1}`,
   then `name`, then the data column. The data column is written last, so a
   data column called "index" or "name" replaces that field.
   */
  function SeriesPoint(h: Host, item: Row, index: nat, dataColumn: string, labelColumn: Option<string>): (p: JsObject<Cell>)
    ensures p.Valid()
    ensures p.Get(dataColumn) == Some(Num(SeriesValue(h, CellAt(item, dataColumn))))
    ensures dataColumn != "index" ==> p.Get("index") == Some(Num(Finite((index + 1) as real)))
    ensures dataColumn != "name" ==> p.Get("name") == Some(Str(PointName(h, item, index, labelColumn)))
    ensures forall k :: k in p.props ==> k == "index" || k == "name" || k == dataColumn
    ensures forall k :: k in p.props ==> p.props[k] != Num(NaN)
  {
    var position := Num(Finite((index + 1) as real));
    var name := Str(PointName(h, item, index, labelColumn));
    var value := Num(SeriesValue(h, CellAt(item, dataColumn)));
    ThreeWrites("index", position, "name", name, dataColumn, value)
  }

  /** `{}` after `o[k1] = v1; o[k2] = v2; o[k3] = v3`, for two different first keys. */
  function ThreeWrites<V>(k1: string, v1: V, k2: string, v2: V, k3: string, v3: V): (o: JsObject<V>)
    requires k1 != k2
    ensures o.Valid()
    ensures o.Get(k3) == Some(v3)
    ensures k3 != k1 ==> o.Get(k1) == Some(v1)
    ensures k3 != k2 ==> o.Get(k2) == Some(v2)
    ensures forall k :: k in o.props ==>
              (k == k1 && o.props[k] == v1) || (k == k2 && o.props[k] == v2) || (k == k3 && o.props[k] == v3)
  {
    EmptyObject<V>().Put(k1, v1).Put(k2, v2).Put(k3, v3)
  }

  /* ----- The shaper ----- */

  /**
   The memoised `chartData`. An empty data column gives an empty payload;
   a pie gets the histogram; bar and line get one point per leading row,
   point `i` built from row `i` alone.
   */
  function ChartData(h: Host, data: seq<Row>, chartType: ChartType, dataColumn: string, labelColumn: Option<string>): (r: Payload)
    ensures dataColumn == "" ==> r.Length() == 0
    ensures dataColumn != "" && chartType == Pie ==> r == PieData(PieSlices(h, data, dataColumn))
    ensures chartType != Pie ==> r.SeriesData?
    ensures dataColumn != "" && chartType != Pie ==>
              |r.points| == Min(|data|, SeriesLimit) &&
              forall i :: 0 <= i < |r.points| ==> r.points[i] == SeriesPoint(h, data[i], i, dataColumn, labelColumn)
  {
    if dataColumn == "" then (if chartType == Pie then PieData([]) else SeriesData([]))
    else if chartType == Pie then PieData(PieSlices(h, data, dataColumn))
    else
      var n := Min(|data|, SeriesLimit);
      SeriesData(seq(n, i requires 0 <= i < n => SeriesPoint(h, data[i], i, dataColumn, labelColumn)))
  }

  /** The "Select a data column" placeholder replaces the chart. */
  predicate ShowsPlaceholder(dataColumn: string, payload: Payload) {
    dataColumn == "" || payload.Length() == 0
  }

  /**
   The placeholder appears exactly when no column is chosen, when a pie's
   column holds only `undefined` and `null`, or when a bar or line chart has
   no rows.
   */
  lemma PlaceholderIff(h: Host, data: seq<Row>, chartType: ChartType, dataColumn: string, labelColumn: Option<string>)
    ensures ShowsPlaceholder(dataColumn, ChartData(h, data, chartType, dataColumn, labelColumn)) <==>
              dataColumn == "" ||
              (chartType == Pie && DefinedCount(data, dataColumn) == 0) ||
              (chartType != Pie && |data| == 0)
  {
    if dataColumn != "" && chartType == Pie {
      var slices := PieSlices(h, data, dataColumn);
      if |slices| == 0 {
        assert Total(slices) == 0;
      } else {
        assert Total(slices) >= slices[0].value >= 1;
      }
    }
  }

  /** Bar and line charts receive the same payload. */
  lemma BarAndLineAgree(h: Host, data: seq<Row>, dataColumn: string, labelColumn: Option<string>)
    ensures ChartData(h, data, Bar, dataColumn, labelColumn) == ChartData(h, data, Line, dataColumn, labelColumn)
  {
  }

  /** Rows past the first 50 never affect a bar or line chart. */
  lemma SeriesIgnoresLaterRows(h: Host, data: seq<Row>, data': seq<Row>, chartType: ChartType, dataColumn: string, labelColumn: Option<string>)
    requires chartType != Pie
    requires |data| >= SeriesLimit && |data'| >= SeriesLimit
    requires data[..SeriesLimit] == data'[..SeriesLimit]
    ensures ChartData(h, data, chartType, dataColumn, labelColumn) == ChartData(h, data', chartType, dataColumn, labelColumn)
  {
    var r := ChartData(h, data, chartType, dataColumn, labelColumn);
    var r' := ChartData(h, data', chartType, dataColumn, labelColumn);
    if dataColumn != "" {
      assert |r.points| == SeriesLimit == |r'.points|;
      forall i | 0 <= i < SeriesLimit
        ensures r.points[i] == r'.points[i]
      {
        assert data[i] == data[..SeriesLimit][i] == data'[i];
      }
      assert r.points == r'.points;
    }
  }
}
