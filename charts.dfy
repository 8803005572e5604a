/** `DataAnalysisService.generate_visualization_data`: chart-ready data, a
    flattened correlation heatmap or one item per label with the label's
    total. */
module Charts {
  import opened Cells
  import opened Frames
  import opened Sorting
  import opened StatisticsEngine
  import opened Aggregation
  import Numeric

  /** One heatmap cell, `[x, y, value]`: column index, row index, rounded
      correlation (None where the correlation is NaN). */
  datatype Triple = Triple(x: nat, y: nat, value: Option<real>)

  /** One chart item: `{"name", "value"}` for bar and pie charts,
      `[label, value]` for line charts. */
  datatype ChartItem = NameValue(name: Cell, value: real) | LabelValue(category: Cell, value: real)

  datatype ChartPayload =
    | HeatmapChart(chartType: string, xColumns: seq<string>, yColumns: seq<string>, cells: seq<Triple>)   // x_axis, y_axis, data
    | HeatmapError(chartType: string)   // the correlation's error payload, passed through
    | SeriesChart(chartType: string, data: seq<ChartItem>, xAxis: string, yAxis: string)

  /** One label and the sum of its values, a row of `chart_df`. */
  datatype LabelTotal = LabelTotal(category: Cell, total: real)

  /** `round(val, 4)`; NaN stays NaN. */
  function Round(lib: Library, v: Option<real>): Option<real>
  {
    match v
    case Some(x) => Some(lib.round4(x))
    case None => None
  }

  // ---------------------------------------------------------------------
  // Heatmap
  // ---------------------------------------------------------------------

  /** The triples of the first `j` cells of row `i`. */
  function RowTriples(lib: Library, m: seq<seq<Option<real>>>, i: nat, j: nat): (r: seq<Triple>)
    requires i < |m| && j <= |m[i]|
    ensures |r| == j
    decreases j
  {
    if j == 0 then [] else RowTriples(lib, m, i, j - 1) + [Triple(j - 1, i, Round(lib, m[i][j - 1]))]
  }

  /** The triples of the first `i` rows, row after row. */
  function HeatmapTriples(lib: Library, m: seq<seq<Option<real>>>, i: nat): seq<Triple>
    requires i <= |m|
    decreases i
  {
    if i == 0 then [] else HeatmapTriples(lib, m, i - 1) + RowTriples(lib, m, i - 1, |m[i - 1]|)
  }

  ghost predicate Square(m: seq<seq<Option<real>>>)
  {
    forall i :: 0 <= i < |m| ==> |m[i]| == |m|
  }

  lemma {:induction false} RowTriplesAt(lib: Library, m: seq<seq<Option<real>>>, i: nat, j: nat, k: nat)
    requires i < |m| && k < j <= |m[i]|
    ensures RowTriples(lib, m, i, j)[k] == Triple(k, i, Round(lib, m[i][k]))
    decreases j
  {
    if k < j - 1 {
      RowTriplesAt(lib, m, i, j - 1, k);
    }
  }

  lemma {:induction false} HeatmapTriplesLength(lib: Library, m: seq<seq<Option<real>>>, i: nat)
    requires Square(m) && i <= |m|
    ensures |HeatmapTriples(lib, m, i)| == i * |m|
    decreases i
  {
    if i > 0 {
      HeatmapTriplesLength(lib, m, i - 1);
      assert (i - 1) * |m| + |m| == i * |m|;
    }
  }

  /** Further rows only append: a triple once placed keeps its position. */
  lemma {:induction false} HeatmapTriplesPrefix(lib: Library, m: seq<seq<Option<real>>>, i: nat, r: nat, k: nat)
    requires Square(m) && i <= r <= |m| && k < i * |m|
    ensures k < |HeatmapTriples(lib, m, i)| <= |HeatmapTriples(lib, m, r)|
    ensures k < |HeatmapTriples(lib, m, i)| ==> HeatmapTriples(lib, m, r)[k] == HeatmapTriples(lib, m, i)[k]
    decreases r
  {
    HeatmapTriplesLength(lib, m, i);
    HeatmapTriplesLength(lib, m, r);
    if i < r {
      HeatmapTriplesPrefix(lib, m, i, r - 1, k);
      HeatmapTriplesLength(lib, m, r - 1);
      assert i * |m| <= (r - 1) * |m|;
    }
  }

  /** The heatmap data of an n by n matrix has n² triples, and position
      `i * n + j` holds `[j, i, round(M[i][j])]`. */
  lemma HeatmapTripleAt(lib: Library, m: seq<seq<Option<real>>>, i: nat, j: nat)
    requires Square(m) && i < |m| && j < |m|
    ensures |HeatmapTriples(lib, m, |m|)| == |m| * |m|
    ensures i * |m| + j < |m| * |m|
    ensures HeatmapTriples(lib, m, |m|)[i * |m| + j] == Triple(j, i, Round(lib, m[i][j]))
  {
    var n := |m|;
    HeatmapTriplesLength(lib, m, n);
    HeatmapTriplesLength(lib, m, i);
    assert i * n + j < (i + 1) * n;
    assert (i + 1) * n <= n * n;
    HeatmapTriplesPrefix(lib, m, i + 1, n, i * n + j);
    assert HeatmapTriples(lib, m, i + 1) == HeatmapTriples(lib, m, i) + RowTriples(lib, m, i, n);
    RowTriplesAt(lib, m, i, n, j);
  }

  /** The nested loop of the heatmap branch: row by row, cell by cell,
      `flat_data.append([j, i, round(val, 4)])`. */
  method FlattenHeatmap(lib: Library, m: seq<seq<Option<real>>>) returns (flat: seq<Triple>)
    ensures flat == HeatmapTriples(lib, m, |m|)
  {
    flat := [];
    for i := 0 to |m|
      invariant flat == HeatmapTriples(lib, m, i)
    {
      for j := 0 to |m[i]|
        invariant flat == HeatmapTriples(lib, m, i) + RowTriples(lib, m, i, j)
      {
        flat := flat + [Triple(j, i, Round(lib, m[i][j]))];
      }
    }
  }

  // ---------------------------------------------------------------------
  // Bar, pie and line charts
  // ---------------------------------------------------------------------

  /** `df.groupby(label_col)[value_col].sum()`: one label and total per
      group key. */
  function LabelTotals(keys: seq<Cell>, values: seq<Cell>): (r: seq<LabelTotal>)
    requires |keys| == |values|
    ensures |r| == |GroupKeys(keys)|
  {
    var ks := GroupKeys(keys);
    seq(|ks|, i requires 0 <= i < |ks| => LabelTotal(ks[i], Numeric.Sum(Numbers(GroupCells(keys, values, ks[i])))))
  }

  /** The label totals hold each distinct present label once, ascending,
      with the total `group_and_aggregate` computes for it with method sum
      (0 when its rows hold no number). */
  lemma LabelTotalsSpec(keys: seq<Cell>, values: seq<Cell>)
    requires |keys| == |values|
    ensures var r := LabelTotals(keys, values);
      && (forall i, j :: 0 <= i < j < |r| ==> CellLe(r[i].category, r[j].category) && r[i].category != r[j].category)
      && (forall c :: c in keys && !c.Missing? <==> exists i :: 0 <= i < |r| && r[i].category == c)
      && (forall i :: 0 <= i < |r| ==> Reduce(Sum, GroupCells(keys, values, r[i].category)) == Num(r[i].total))
  {
    var r := LabelTotals(keys, values);
    var ks := GroupKeys(keys);
    GroupKeysSpec(keys);
    assert forall i :: 0 <= i < |r| ==> r[i].category == ks[i];
  }

  /** Whether the labels hold both a number and a text, which
      `sort_values(by=label_col)` cannot order. */
  predicate MixesNumbersAndText(labels: seq<Cell>)
  {
    (exists i :: 0 <= i < |labels| && labels[i].Num?) && (exists i :: 0 <= i < |labels| && labels[i].Str?)
  }

  predicate IsSeriesChart(chartType: string)
  {
    chartType == "pie" || chartType == "line" || chartType == "bar"
  }

  function Item(chartType: string, g: LabelTotal): ChartItem
  {
    if chartType == "line" then LabelValue(g.category, g.total) else NameValue(g.category, g.total)
  }

  /** The loop over `chart_df.iterrows()`: one item per label, in order. */
  method SeriesItems(groups: seq<LabelTotal>, chartType: string) returns (data: seq<ChartItem>)
    requires IsSeriesChart(chartType)
    ensures |data| == |groups|
    ensures forall i :: 0 <= i < |data| ==> data[i] == Item(chartType, groups[i])
  {
    data := [];
    var i := 0;
    while i < |groups|
      invariant 0 <= i <= |groups|
      invariant |data| == i
      invariant forall k :: 0 <= k < i ==> data[k] == Item(chartType, groups[k])
    {
      if chartType == "line" {
        data := data + [LabelValue(groups[i].category, groups[i].total)];
      } else {
        data := data + [NameValue(groups[i].category, groups[i].total)];
      }
      i := i + 1;
    }
  }

  function ItemLabel(item: ChartItem): Cell
  {
    match item
    case NameValue(name, _) => name
    case LabelValue(category, _) => category
  }

  function ItemValue(item: ChartItem): real
  {
    match item
    case NameValue(_, value) => value
    case LabelValue(_, value) => value
  }

  // ---------------------------------------------------------------------
  // The service operation
  // ---------------------------------------------------------------------

  /** Whether `not label_col or not value_col` holds. */
  predicate MissingParameters(labelCol: Option<string>, valueCol: Option<string>)
  {
    labelCol.None? || valueCol.None? || labelCol.value == "" || valueCol.value == ""
  }

  /** Both parameters are given and name columns of the frame. */
  predicate ColumnsFound(t: Table, labelCol: Option<string>, valueCol: Option<string>)
  {
    !MissingParameters(labelCol, valueCol) && labelCol.value in t.columns && valueCol.value in t.columns
  }

  /** The columns are found and distinct, and the labels can be ordered. */
  predicate SeriesRequestValid(t: Table, labelCol: Option<string>, valueCol: Option<string>)
    requires t.WellFormed()
  {
    && ColumnsFound(t, labelCol, valueCol)
    && labelCol.value != valueCol.value
    && !MixesNumbersAndText(GroupKeys(t.Column(IndexOf(t.columns, labelCol.value))))
  }

  /** `generate_visualization_data(df, label_col, value_col, chart_type)`.
      A heatmap passes the correlation's error payload through or flattens
      its matrix; any other chart needs both parameters and both columns,
      fails when the label column is the value column or its labels mix
      numbers and text, and rejects an unknown chart type only then. */
  function Visualization(t: Table, labelCol: Option<string>, valueCol: Option<string>, chartType: string, lib: Library)
    : (r: Result<ChartPayload>)
    requires t.WellFormed()
    ensures chartType == "heatmap" ==> r.Success?
    ensures r.Success? ==> r.value.chartType == chartType
    ensures chartType == "heatmap" ==>
      (r.value.HeatmapError? <==> CalculateCorrelation(t, lib).InsufficientNumericColumns?)
    ensures chartType == "heatmap" && r.value.HeatmapChart? ==>
      && r.value.xColumns == r.value.yColumns == CalculateCorrelation(t, lib).columns
      && |r.value.cells| == |r.value.xColumns| * |r.value.xColumns|
      && r.value.cells == HeatmapTriples(lib, CalculateCorrelation(t, lib).data, |r.value.xColumns|)
    ensures chartType != "heatmap" ==>
      && (r == Failure(MissingParameter) <==> MissingParameters(labelCol, valueCol))
      && (r == Failure(WrongColumnName) <==>
            !MissingParameters(labelCol, valueCol) && (labelCol.value !in t.columns || valueCol.value !in t.columns))
      && (r.Success? ==> IsSeriesChart(chartType) && r.value.SeriesChart?)
      && (r.Failure? && r.error.UnsupportedChartType? ==> !IsSeriesChart(chartType))
  {
    if chartType == "heatmap" then
      var corr := CalculateCorrelation(t, lib);
      if corr.InsufficientNumericColumns? then Success(HeatmapError(chartType))
      else
        HeatmapTriplesLength(lib, corr.data, |corr.data|);
        Success(HeatmapChart(chartType, corr.columns, corr.columns, HeatmapTriples(lib, corr.data, |corr.data|)))
    else if MissingParameters(labelCol, valueCol) then Failure(MissingParameter)
    else
      var l, v := labelCol.value, valueCol.value;
      if l !in t.columns || v !in t.columns then Failure(WrongColumnName)
      else if l == v then Failure(ColumnAlreadyExists(l))
      else
        var keys := t.Column(IndexOf(t.columns, l));
        var values := CoerceColumn(lib, t.Column(IndexOf(t.columns, v)));
        if MixesNumbersAndText(GroupKeys(keys)) then Failure(UnorderableLabels)
        else if !IsSeriesChart(chartType) then Failure(UnsupportedChartType(chartType))
        else Success(SeriesChart(chartType, seq(|GroupKeys(keys)|, i requires 0 <= i < |GroupKeys(keys)| =>
                                   Item(chartType, LabelTotals(keys, values)[i])), l, v))
  }

  /** A heatmap's cell for row `i` and column `j` of the correlation matrix
      sits at `i * n + j` of the flattened data, as `[j, i, value]` with the
      coefficient rounded to four places. */
  lemma HeatmapPayloadAt(t: Table, labelCol: Option<string>, valueCol: Option<string>, lib: Library,
                         r: ChartPayload, i: nat, j: nat)
    requires t.WellFormed()
    requires Visualization(t, labelCol, valueCol, "heatmap", lib) == Success(r)
    requires r.HeatmapChart? && i < |r.xColumns| && j < |r.xColumns|
    ensures r.xColumns[j] == r.yColumns[j]
    ensures i * |r.xColumns| + j < |r.cells|
    ensures r.cells[i * |r.xColumns| + j] == Triple(j, i, Round(lib, CalculateCorrelation(t, lib).data[i][j]))
  {
    var corr := CalculateCorrelation(t, lib);
    assert Square(corr.data);
    HeatmapTripleAt(lib, corr.data, i, j);
  }

  /** For a chart other than a heatmap, once both columns are found: the
      same column twice is refused, then labels mixing numbers and text,
      then an unknown chart type; every other request succeeds. */
  lemma SeriesOutcomes(t: Table, labelCol: Option<string>, valueCol: Option<string>, chartType: string, lib: Library)
    requires t.WellFormed() && chartType != "heatmap"
    ensures var r := Visualization(t, labelCol, valueCol, chartType, lib);
      && (r.Failure? && r.error.ColumnAlreadyExists? <==>
            ColumnsFound(t, labelCol, valueCol) && labelCol.value == valueCol.value)
      && (ColumnsFound(t, labelCol, valueCol) && labelCol.value == valueCol.value ==>
            r == Failure(ColumnAlreadyExists(labelCol.value)))
      && (r == Failure(UnorderableLabels) <==>
            && ColumnsFound(t, labelCol, valueCol) && labelCol.value != valueCol.value
            && !SeriesRequestValid(t, labelCol, valueCol))
      && (r.Failure? && r.error.UnsupportedChartType? <==>
            SeriesRequestValid(t, labelCol, valueCol) && !IsSeriesChart(chartType))
      && (r.Success? <==> SeriesRequestValid(t, labelCol, valueCol) && IsSeriesChart(chartType))
  {
  }

  /** The frame after the call: the value column coerced in the caller's
      frame once both parameters are given and both columns found, whatever
      happens next; unchanged for a heatmap or an earlier error. */
  function AfterChart(t: Table, labelCol: Option<string>, valueCol: Option<string>, chartType: string, lib: Library)
    : (u: Table)
    requires t.WellFormed()
    ensures u.WellFormed() && u.columns == t.columns && |u.rows| == |t.rows|
  {
    if chartType == "heatmap" || MissingParameters(labelCol, valueCol)
       || labelCol.value !in t.columns || valueCol.value !in t.columns then t
    else
      var k := IndexOf(t.columns, valueCol.value);
      t.WithColumn(k, CoerceColumn(lib, t.Column(k)), Numeric)
  }

  /** A bar, pie or line chart has one item per distinct present label, in
      ascending label order, each carrying the sum of the numbers the value
      column holds for that label; line charts use `[label, value]` items
      and the others `{name, value}` items. */
  lemma SeriesItemsSpec(t: Table, labelCol: Option<string>, valueCol: Option<string>, chartType: string, lib: Library)
    requires t.WellFormed()
    requires chartType != "heatmap" && Visualization(t, labelCol, valueCol, chartType, lib).Success?
    ensures var r := Visualization(t, labelCol, valueCol, chartType, lib).value;
      var keys := t.Column(IndexOf(t.columns, labelCol.value));
      var values := CoerceColumn(lib, t.Column(IndexOf(t.columns, valueCol.value)));
      && r.chartType == chartType && r.xAxis == labelCol.value && r.yAxis == valueCol.value
      && |r.data| == |set c | c in keys && !c.Missing?|
      && (forall i, j :: 0 <= i < j < |r.data| ==> CellLe(ItemLabel(r.data[i]), ItemLabel(r.data[j])) && ItemLabel(r.data[i]) != ItemLabel(r.data[j]))
      && (forall c :: c in keys && !c.Missing? <==> exists i :: 0 <= i < |r.data| && ItemLabel(r.data[i]) == c)
      && (forall i :: 0 <= i < |r.data| ==>
            ItemValue(r.data[i]) == Numeric.Sum(Numbers(GroupCells(keys, values, ItemLabel(r.data[i])))))
      && (forall i :: 0 <= i < |r.data| ==> (r.data[i].LabelValue? <==> chartType == "line"))
  {
    var keys := t.Column(IndexOf(t.columns, labelCol.value));
    var values := CoerceColumn(lib, t.Column(IndexOf(t.columns, valueCol.value)));
    var ks := GroupKeys(keys);
    GroupKeysSpec(keys);
    GroupCount(keys);
    var r := Visualization(t, labelCol, valueCol, chartType, lib).value;
    assert forall i :: 0 <= i < |r.data| ==> ItemLabel(r.data[i]) == ks[i];
    forall c | c in keys && !c.Missing?
      ensures exists i :: 0 <= i < |r.data| && ItemLabel(r.data[i]) == c
    {
      var i :| 0 <= i < |ks| && ks[i] == c;
      assert ItemLabel(r.data[i]) == c;
    }
  }

  /** `generate_visualization_data` on the caller's frame. */
  method GenerateVisualizationData(df: DataFrame, labelCol: Option<string>, valueCol: Option<string>,
                                   chartType: string, lib: Library)
    returns (r: Result<ChartPayload>)
    requires df.table.WellFormed()
    modifies df
    ensures r == Visualization(old(df.table), labelCol, valueCol, chartType, lib)
    ensures df.table == AfterChart(old(df.table), labelCol, valueCol, chartType, lib)
  {
    var t := df.table;
    if chartType == "heatmap" {
      var corr := CalculateCorrelation(t, lib);
      if corr.InsufficientNumericColumns? {
        return Success(HeatmapError(chartType));
      }
      var flat := FlattenHeatmap(lib, corr.data);
      return Success(HeatmapChart(chartType, corr.columns, corr.columns, flat));
    }
    if MissingParameters(labelCol, valueCol) {
      return Failure(MissingParameter);
    }
    var l, v := labelCol.value, valueCol.value;
    if l !in t.columns || v !in t.columns {
      return Failure(WrongColumnName);
    }
    var vk := IndexOf(t.columns, v);
    df.Assign(vk, CoerceColumn(lib, t.Column(vk)), Numeric);
    if l == v {
      return Failure(ColumnAlreadyExists(l));
    }
    var lk := IndexOf(t.columns, l);
    var keys := df.table.Column(lk);
    assert keys == t.Column(lk);
    var values := df.table.Column(vk);
    assert values == CoerceColumn(lib, t.Column(vk));
    var groups := LabelTotals(keys, values);
    if MixesNumbersAndText(GroupKeys(keys)) {
      return Failure(UnorderableLabels);
    }
    if !IsSeriesChart(chartType) {
      return Failure(UnsupportedChartType(chartType));
    }
    var data := SeriesItems(groups, chartType);
    assert data == seq(|GroupKeys(keys)|, i requires 0 <= i < |GroupKeys(keys)| => Item(chartType, groups[i]));
    return Success(SeriesChart(chartType, data, l, v));
  }

  // ---------------------------------------------------------------------
  // Example
  // ---------------------------------------------------------------------

  function LineExample(): (t: Table)
    ensures t.WellFormed()
  {
    Table(["x", "y"], [Object, Numeric], [[Str("p"), Num(1.0)], [Str("q"), Num(2.0)]])
  }

  lemma LineExampleKeys(keys: seq<Cell>)
    requires keys == [Str("p"), Str("q")]
    ensures GroupKeys(keys) == [Str("p"), Str("q")]
  {
    var k1 := keys[..1];
    assert k1 == [Str("p")] && k1[..0] == [];
    assert Str("p") != Str("q") by { assert "p"[0] != "q"[0]; }
    assert !StrLe("q", "p") by { assert "q"[0] != "p"[0]; }
    assert [Str("p")][1..] == [];
    assert GroupKeys(keys) == InsertKey(Str("q"), [Str("p")]) == [Str("p")] + InsertKey(Str("q"), []);
  }

  lemma LineExampleCells(keys: seq<Cell>, values: seq<Cell>)
    requires keys == [Str("p"), Str("q")] && values == [Num(1.0), Num(2.0)]
    ensures GroupCells(keys, values, Str("p")) == [Num(1.0)]
    ensures GroupCells(keys, values, Str("q")) == [Num(2.0)]
  {
    var k1, v1 := keys[..1], values[..1];
    assert k1 == [Str("p")] && v1 == [Num(1.0)] && k1[..0] == [] && v1[..0] == [];
    assert Str("p") != Str("q") by { assert "p"[0] != "q"[0]; }
    assert GroupCells(k1, v1, Str("p")) == [Num(1.0)];
    assert GroupCells(k1, v1, Str("q")) == [];
    assert GroupCells(keys, values, Str("p")) == GroupCells(k1, v1, Str("p"));
    assert GroupCells(keys, values, Str("q")) == GroupCells(k1, v1, Str("q")) + [Num(2.0)];
  }

  lemma SingleTotal(cells: seq<Cell>, x: real)
    requires cells == [Num(x)]
    ensures Numeric.Sum(Numbers(cells)) == x
  {
    assert cells[..0] == [];
    assert Numbers(cells) == [x];
    assert [x][..0] == [];
  }

  lemma LineExampleGroups(keys: seq<Cell>, values: seq<Cell>)
    requires keys == [Str("p"), Str("q")] && values == [Num(1.0), Num(2.0)]
    ensures GroupKeys(keys) == [Str("p"), Str("q")]
    ensures LabelTotals(keys, values) == [LabelTotal(Str("p"), 1.0), LabelTotal(Str("q"), 2.0)]
  {
    LineExampleKeys(keys);
    LineExampleCells(keys, values);
    SingleTotal([Num(1.0)], 1.0);
    SingleTotal([Num(2.0)], 2.0);
  }

  /** A line chart over p:1 and q:2 is `[["p", 1.0], ["q", 2.0]]`. */
  lemma LineExampleData(lib: Library)
    ensures Visualization(LineExample(), Some("x"), Some("y"), "line", lib)
      == Success(SeriesChart("line", [LabelValue(Str("p"), 1.0), LabelValue(Str("q"), 2.0)], "x", "y"))
  {
    var t := LineExample();
    assert IndexOf(t.columns, "x") == 0;
    assert IndexOf(t.columns, "y") == 1;
    var keys := t.Column(0);
    var values := CoerceColumn(lib, t.Column(1));
    assert keys == [Str("p"), Str("q")];
    assert values == [Num(1.0), Num(2.0)];
    LineExampleGroups(keys, values);
    assert !MixesNumbersAndText(GroupKeys(keys));
    assert "line" != "heatmap" by { assert "line"[0] != "heatmap"[0]; }
    assert "x" != "y" by { assert "x"[0] != "y"[0]; }
    assert !MissingParameters(Some("x"), Some("y"));
    assert IsSeriesChart("line");
    var groups := LabelTotals(keys, values);
    assert "x" in t.columns && "y" in t.columns;
    var data := seq(|GroupKeys(keys)|, i requires 0 <= i < |GroupKeys(keys)| => Item("line", groups[i]));
    assert Visualization(t, Some("x"), Some("y"), "line", lib) == Success(SeriesChart("line", data, "x", "y"));
    assert data == [LabelValue(Str("p"), 1.0), LabelValue(Str("q"), 2.0)];
  }
}
