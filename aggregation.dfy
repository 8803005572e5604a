/** `DataAnalysisService.group_and_aggregate`: one record per distinct value
    of a key column, holding an aggregate of another column over the rows
    with that key. */
module Aggregation {
  import opened Cells
  import opened Frames
  import opened Sorting
  import opened RowFilters
  import Numeric

  /** The aggregation methods the request schema accepts. */
  datatype Method = Sum | Mean | Count | Max | Min

  function MethodName(m: Method): string
  {
    match m
    case Sum => "sum"
    case Mean => "mean"
    case Count => "count"
    case Max => "max"
    case Min => "min"
  }

  /** The name of the aggregated column in the result, `f"{agg_col}_{method}"`. */
  function FieldName(aggCol: string, m: Method): string
  {
    aggCol + "_" + MethodName(m)
  }

  /** The cells of `values` in the rows whose key is `key`, in row order. */
  function GroupCells(keys: seq<Cell>, values: seq<Cell>, key: Cell): (r: seq<Cell>)
    requires |keys| == |values|
    decreases |keys|
  {
    if |keys| == 0 then []
    else
      var n := |keys| - 1;
      var init := GroupCells(keys[..n], values[..n], key);
      if keys[n] == key then init + [values[n]] else init
  }

  /** The numbers among the cells (missing ones skipped), in cell order. */
  function Numbers(cells: seq<Cell>): (r: seq<real>)
    ensures forall x :: x in r ==> Num(x) in cells
    ensures forall i :: 0 <= i < |cells| && cells[i].Num? ==> cells[i].value in r
    ensures |r| == 0 <==> NoNumbers(cells)
    decreases |cells|
  {
    if |cells| == 0 then []
    else
      var n := |cells| - 1;
      assert cells == cells[..n] + [cells[n]];
      var init := Numbers(cells[..n]);
      match cells[n]
      case Num(x) => init + [x]
      case _ => init
  }

  /** The values as number cells. */
  /** The numbers are those of the number cells at exactly their positions,
      in order, so each number cell counts once. */
  lemma {:induction false} NumbersPicks(cells: seq<Cell>) returns (pos: seq<nat>)
    ensures |pos| == |Numbers(cells)|
    ensures forall k :: 0 <= k < |pos| ==> pos[k] < |cells| && cells[pos[k]] == Num(Numbers(cells)[k])
    ensures forall k, l :: 0 <= k < l < |pos| ==> pos[k] < pos[l]
    ensures forall j :: 0 <= j < |cells| ==> (j in pos <==> cells[j].Num?)
    decreases |cells|
  {
    if |cells| == 0 {
      pos := [];
    } else {
      var n := |cells| - 1;
      var p := NumbersPicks(cells[..n]);
      pos := if cells[n].Num? then p + [n] else p;
      NumberPicksStep(cells, p, pos);
      NumberPositionsStep(cells, p, pos);
    }
  }

  /** Extending the picked number cells of a prefix by the last cell. */
  lemma NumberPicksStep(cells: seq<Cell>, p: seq<nat>, pos: seq<nat>)
    requires |cells| > 0
    requires |p| == |Numbers(cells[..|cells| - 1])|
    requires forall k :: 0 <= k < |p| ==>
      p[k] < |cells| - 1 && cells[..|cells| - 1][p[k]] == Num(Numbers(cells[..|cells| - 1])[k])
    requires forall k, l :: 0 <= k < l < |p| ==> p[k] < p[l]
    requires pos == if cells[|cells| - 1].Num? then p + [|cells| - 1] else p
    ensures |pos| == |Numbers(cells)|
    ensures forall k :: 0 <= k < |pos| ==> pos[k] < |cells| && cells[pos[k]] == Num(Numbers(cells)[k])
    ensures forall k, l :: 0 <= k < l < |pos| ==> pos[k] < pos[l]
  {
    var n := |cells| - 1;
    var init := Numbers(cells[..n]);
    assert cells == cells[..n] + [cells[n]];
    assert forall k :: 0 <= k < |p| ==> cells[p[k]] == cells[..n][p[k]];
    if cells[n].Num? {
      assert Numbers(cells) == init + [cells[n].value];
    } else {
      assert Numbers(cells) == init;
    }
  }

  /** Extending the number positions of a prefix by the last cell. */
  lemma NumberPositionsStep(cells: seq<Cell>, p: seq<nat>, pos: seq<nat>)
    requires |cells| > 0
    requires forall k :: 0 <= k < |p| ==> p[k] < |cells| - 1
    requires forall j :: 0 <= j < |cells| - 1 ==> (j in p <==> cells[..|cells| - 1][j].Num?)
    requires pos == if cells[|cells| - 1].Num? then p + [|cells| - 1] else p
    ensures forall j :: 0 <= j < |cells| ==> (j in pos <==> cells[j].Num?)
  {
    var n := |cells| - 1;
    forall j | 0 <= j < |cells|
      ensures j in pos <==> cells[j].Num?
    {
      if j < n {
        assert cells[j] == cells[..n][j];
        assert j in pos <==> j in p;
      } else {
        assert n !in p by {
          forall k | 0 <= k < |p| ensures p[k] != n { }
        }
      }
    }
  }

  /** No cell holds a number. */
  predicate NoNumbers(cells: seq<Cell>)
  {
    forall i :: 0 <= i < |cells| ==> !cells[i].Num?
  }

  /** The positions of the cells that are not missing. */
  function PresentAt(cells: seq<Cell>): set<nat>
  {
    set j: nat | j < |cells| && !cells[j].Missing?
  }

  /** How many cells are not missing. */
  function Present(cells: seq<Cell>): (r: nat)
    ensures r == |PresentAt(cells)|
    decreases |cells|
  {
    if |cells| == 0 then 0
    else
      var n := |cells| - 1;
      if cells[n].Missing? then
        assert PresentAt(cells) == PresentAt(cells[..n]);
        Present(cells[..n])
      else
        assert PresentAt(cells) == PresentAt(cells[..n]) + {n};
        Present(cells[..n]) + 1
  }

  /** pandas' reduction of one group: the sum of an empty group is 0, its
      mean, maximum and minimum are NaN, here missing, and count counts the
      cells that are not missing, text included. The sum, mean, maximum and
      minimum see only the numbers among the cells. */
  function Reduce(m: Method, cells: seq<Cell>): (r: Cell)
    ensures m == Sum ==> r.Num? && (NoNumbers(cells) ==> r == Num(0.0))
    ensures m == Count ==> r == Num(|PresentAt(cells)| as real)
    ensures m != Sum && m != Count ==> (r.Missing? <==> NoNumbers(cells))
    ensures m == Max && r.Num? ==>
      && Num(r.value) in cells
      && forall i :: 0 <= i < |cells| && cells[i].Num? ==> cells[i].value <= r.value
    ensures m == Min && r.Num? ==>
      && Num(r.value) in cells
      && forall i :: 0 <= i < |cells| && cells[i].Num? ==> r.value <= cells[i].value
    ensures m == Mean && r.Num? ==>
      exists i, j :: 0 <= i < |cells| && 0 <= j < |cells| && cells[i].Num? && cells[j].Num? &&
        cells[i].value <= r.value <= cells[j].value
  {
    var xs := Numbers(cells);
    match m
    case Sum => Num(Numeric.Sum(xs))
    case Count => Num(Present(cells) as real)
    case Mean =>
      if |xs| == 0 then Missing
      else
        Numeric.MeanBounds(xs);
        assert Num(Numeric.Min(xs)) in cells && Num(Numeric.Max(xs)) in cells;
        Num(Numeric.Mean(xs))
    case Max => if |xs| == 0 then Missing else Num(Numeric.Max(xs))
    case Min => if |xs| == 0 then Missing else Num(Numeric.Min(xs))
  }

  /** The aggregated column as the aggregation sees it: coerced to numbers
      unless the method is count. */
  function AggregatedValues(lib: Library, cells: seq<Cell>, m: Method): (r: seq<Cell>)
    ensures |r| == |cells|
  {
    if m == Count then cells else CoerceColumn(lib, cells)
  }

  /** `grouped.reset_index()` with its columns renamed, as records. */
  function GroupRecords(groupCol: string, field: string, m: Method, keys: seq<Cell>, values: seq<Cell>): (r: seq<Record>)
    requires |keys| == |values|
    ensures |r| == |GroupKeys(keys)|
  {
    var ks := GroupKeys(keys);
    seq(|ks|, i requires 0 <= i < |ks| => ToRecord([groupCol, field], [ks[i], Reduce(m, GroupCells(keys, values, ks[i]))]))
  }

  /** The frame after the call: the aggregated column coerced in the
      caller's frame unless the method is count or a column is absent. */
  function AfterAggregate(t: Table, groupCol: string, aggCol: string, m: Method, lib: Library): (u: Table)
    requires t.WellFormed()
    ensures u.WellFormed() && u.columns == t.columns && |u.rows| == |t.rows|
  {
    if groupCol !in t.columns || aggCol !in t.columns || m == Count then t
    else
      var k := IndexOf(t.columns, aggCol);
      t.WithColumn(k, CoerceColumn(lib, t.Column(k)), Numeric)
  }

  /** `group_and_aggregate(df, group_col, agg_col, method)`: an absent column
      raises; grouping a column by itself raises once reset_index meets the
      repeated name; otherwise one record per distinct present key, each with
      exactly the key column and the aggregate column. */
  function GroupAggregate(t: Table, groupCol: string, aggCol: string, m: Method, lib: Library): (r: Result<seq<Record>>)
    requires t.WellFormed()
    ensures r == Failure(WrongColumnName) <==> groupCol !in t.columns || aggCol !in t.columns
    ensures r == Failure(AggregationFailed) <==> groupCol in t.columns && groupCol == aggCol
    ensures r.Failure? ==> r.error == WrongColumnName || r.error == AggregationFailed
    ensures r.Success? ==>
      && groupCol in t.columns
      && |r.value| == |set c | c in t.Column(IndexOf(t.columns, groupCol)) && !c.Missing?|
      && forall i :: 0 <= i < |r.value| ==> r.value[i].Keys == {groupCol, FieldName(aggCol, m)}
  {
    if groupCol !in t.columns || aggCol !in t.columns then Failure(WrongColumnName)
    else if groupCol == aggCol then Failure(AggregationFailed)
    else
      var keys := t.Column(IndexOf(t.columns, groupCol));
      var values := AggregatedValues(lib, t.Column(IndexOf(t.columns, aggCol)), m);
      GroupCount(keys);
      var r := GroupRecords(groupCol, FieldName(aggCol, m), m, keys, values);
      assert forall i :: 0 <= i < |r| ==> r[i].Keys == {groupCol, FieldName(aggCol, m)};
      Success(r)
  }

  /** The records of a group: the key under the key column (unless the
      aggregate's name equals it, when to_dict keeps the aggregate) and the
      aggregate under its own name. */
  lemma PairRecord(groupCol: string, field: string, key: Cell, value: Cell)
    ensures ToRecord([groupCol, field], [key, value]) == map[groupCol := key][field := value]
  {
    assert [groupCol, field][..1] == [groupCol];
    assert [key, value][..1] == [key];
    assert [groupCol][..0] == [];
  }

  /** Record i holds the i-th group key under the group column's name. */
  lemma RecordKeys(groupCol: string, field: string, m: Method, keys: seq<Cell>, values: seq<Cell>)
    requires |keys| == |values|
    requires groupCol != field
    ensures var r := GroupRecords(groupCol, field, m, keys, values);
      forall i :: 0 <= i < |r| ==> groupCol in r[i] && r[i][groupCol] == GroupKeys(keys)[i]
  {
    var r := GroupRecords(groupCol, field, m, keys, values);
    var ks := GroupKeys(keys);
    forall i | 0 <= i < |r|
      ensures groupCol in r[i] && r[i][groupCol] == ks[i]
    {
      PairRecord(groupCol, field, ks[i], Reduce(m, GroupCells(keys, values, ks[i])));
    }
  }

  /** The result lists the keys in ascending order, each distinct present
      key of the group column exactly once. */
  lemma GroupAggregateKeys(t: Table, groupCol: string, aggCol: string, m: Method, lib: Library)
    requires t.WellFormed()
    requires GroupAggregate(t, groupCol, aggCol, m, lib).Success?
    requires groupCol != FieldName(aggCol, m)
    ensures var r := GroupAggregate(t, groupCol, aggCol, m, lib).value;
      var keys := t.Column(IndexOf(t.columns, groupCol));
      && (forall i, j :: 0 <= i < j < |r| ==> CellLe(r[i][groupCol], r[j][groupCol]) && r[i][groupCol] != r[j][groupCol])
      && (forall i :: 0 <= i < |r| ==> r[i][groupCol] in keys && !r[i][groupCol].Missing?)
      && (forall c :: c in keys && !c.Missing? ==> exists i :: 0 <= i < |r| && r[i][groupCol] == c)
  {
    var r := GroupAggregate(t, groupCol, aggCol, m, lib).value;
    var keys := t.Column(IndexOf(t.columns, groupCol));
    var values := AggregatedValues(lib, t.Column(IndexOf(t.columns, aggCol)), m);
    var ks := GroupKeys(keys);
    assert r == GroupRecords(groupCol, FieldName(aggCol, m), m, keys, values);
    RecordKeys(groupCol, FieldName(aggCol, m), m, keys, values);
    GroupKeysSpec(keys);
    forall c | c in keys && !c.Missing?
      ensures exists i :: 0 <= i < |r| && r[i][groupCol] == c
    {
      var i :| 0 <= i < |ks| && ks[i] == c;
      assert r[i][groupCol] == c;
    }
  }

  /** A group's cells are the values at exactly the rows with that key, in
      row order. */
  lemma {:induction false} GroupCellsPicks(keys: seq<Cell>, values: seq<Cell>, key: Cell) returns (pos: seq<nat>)
    requires |keys| == |values|
    ensures PicksAt(GroupCells(keys, values, key), values, pos)
    ensures forall j :: 0 <= j < |keys| ==> (j in pos <==> keys[j] == key)
    decreases |keys|
  {
    if |keys| == 0 {
      pos := [];
    } else {
      var n := |keys| - 1;
      var p := GroupCellsPicks(keys[..n], values[..n], key);
      PicksInPrefix(GroupCells(keys[..n], values[..n], key), values[..n], p, values[n]);
      assert values == values[..n] + [values[n]];
      pos := if keys[n] == key then p + [n] else p;
      forall j | 0 <= j < |keys|
        ensures j in pos <==> keys[j] == key
      {
        if j < n {
          assert keys[j] == keys[..n][j];
          assert j in pos <==> j in p;
        } else {
          assert n !in p by {
            forall k | 0 <= k < |p| ensures p[k] != n { }
          }
        }
      }
    }
  }

  /** Each record's aggregate is the method applied to the cells of the
      aggregated column, coerced unless the method is count, in exactly the
      rows whose key is the record's own key, in row order. */
  lemma GroupAggregateValues(t: Table, groupCol: string, aggCol: string, m: Method, lib: Library, i: nat)
    requires t.WellFormed()
    requires GroupAggregate(t, groupCol, aggCol, m, lib).Success?
    requires i < |GroupAggregate(t, groupCol, aggCol, m, lib).value|
    ensures var r := GroupAggregate(t, groupCol, aggCol, m, lib).value;
      var keys := t.Column(IndexOf(t.columns, groupCol));
      var values := AggregatedValues(lib, t.Column(IndexOf(t.columns, aggCol)), m);
      && r[i][FieldName(aggCol, m)] == Reduce(m, GroupCells(keys, values, GroupKeys(keys)[i]))
      && (groupCol != FieldName(aggCol, m) ==>
        && r[i][FieldName(aggCol, m)] == Reduce(m, GroupCells(keys, values, r[i][groupCol]))
        && exists pos ::
          && PicksAt(GroupCells(keys, values, r[i][groupCol]), values, pos)
          && forall j :: 0 <= j < |keys| ==> (j in pos <==> keys[j] == r[i][groupCol]))
  {
    var keys := t.Column(IndexOf(t.columns, groupCol));
    var values := AggregatedValues(lib, t.Column(IndexOf(t.columns, aggCol)), m);
    var ks := GroupKeys(keys);
    PairRecord(groupCol, FieldName(aggCol, m), ks[i], Reduce(m, GroupCells(keys, values, ks[i])));
    var pos := GroupCellsPicks(keys, values, ks[i]);
  }

  /** The rows whose key is `key` and whose value is present. */
  function PresentRowsWithKey(keys: seq<Cell>, values: seq<Cell>, key: Cell): set<nat>
    requires |keys| == |values|
  {
    set j: nat | j < |keys| && keys[j] == key && !values[j].Missing?
  }

  /** Counting a group's present cells is counting the rows with that key
      and a present value. */
  lemma {:induction false} PresentGroupCells(keys: seq<Cell>, values: seq<Cell>, key: Cell)
    requires |keys| == |values|
    ensures Present(GroupCells(keys, values, key)) == |PresentRowsWithKey(keys, values, key)|
    decreases |keys|
  {
    if |keys| > 0 {
      var n := |keys| - 1;
      PresentGroupCells(keys[..n], values[..n], key);
      var init := GroupCells(keys[..n], values[..n], key);
      PresentRowsStep(keys, values, key);
      if keys[n] == key {
        var g := GroupCells(keys, values, key);
        assert g == init + [values[n]];
        assert g[..|init|] == init && g[|init|] == values[n];
        assert Present(g) == Present(init) + (if values[n].Missing? then 0 else 1);
      }
    }
  }

  /** The present rows with a key, extended by the last row. */
  lemma PresentRowsStep(keys: seq<Cell>, values: seq<Cell>, key: Cell)
    requires |keys| == |values| > 0
    ensures var n := |keys| - 1;
      PresentRowsWithKey(keys, values, key)
        == PresentRowsWithKey(keys[..n], values[..n], key)
           + (if keys[n] == key && !values[n].Missing? then {n} else {})
  {
  }

  /** With method count the column is not coerced: the aggregate is the
      number of rows of the group whose cell is present, text cells
      included. */
  lemma CountCountsPresentCells(t: Table, groupCol: string, aggCol: string, lib: Library, i: nat)
    requires t.WellFormed()
    requires GroupAggregate(t, groupCol, aggCol, Count, lib).Success?
    requires i < |GroupAggregate(t, groupCol, aggCol, Count, lib).value|
    ensures var keys := t.Column(IndexOf(t.columns, groupCol));
      var values := t.Column(IndexOf(t.columns, aggCol));
      GroupAggregate(t, groupCol, aggCol, Count, lib).value[i][FieldName(aggCol, Count)]
        == Num(|PresentRowsWithKey(keys, values, GroupKeys(keys)[i])| as real)
  {
    var keys := t.Column(IndexOf(t.columns, groupCol));
    var values := t.Column(IndexOf(t.columns, aggCol));
    GroupAggregateValues(t, groupCol, aggCol, Count, lib, i);
    PresentGroupCells(keys, values, GroupKeys(keys)[i]);
  }

  /** `group_and_aggregate(df, group_col, agg_col, method)` on the caller's
      frame: after both columns are found and unless the method is count,
      `df[agg_col]` is overwritten with its numeric coercion, and it stays
      overwritten even when the aggregation then fails. */
  method GroupAndAggregate(df: DataFrame, groupCol: string, aggCol: string, m: Method, lib: Library)
    returns (r: Result<seq<Record>>)
    requires df.table.WellFormed()
    modifies df
    ensures r == GroupAggregate(old(df.table), groupCol, aggCol, m, lib)
    ensures df.table == AfterAggregate(old(df.table), groupCol, aggCol, m, lib)
  {
    var t := df.table;
    if groupCol !in t.columns || aggCol !in t.columns {
      return Failure(WrongColumnName);
    }
    var a := IndexOf(t.columns, aggCol);
    if m != Count {
      df.Assign(a, CoerceColumn(lib, t.Column(a)), Numeric);
    }
    if groupCol == aggCol {
      return Failure(AggregationFailed);
    }
    var keys := df.table.Column(IndexOf(t.columns, groupCol));
    var values := df.table.Column(a);
    r := Success(GroupRecords(groupCol, FieldName(aggCol, m), m, keys, values));
  }

  // ---------------------------------------------------------------------
  // Example
  // ---------------------------------------------------------------------

  function SalesExample(): (t: Table)
    ensures t.WellFormed()
  {
    Table(["g", "v"], [Object, Numeric],
          [[Str("A"), Num(1.0)], [Str("A"), Num(2.0)], [Str("B"), Num(3.0)]])
  }

  lemma ExampleColumns()
    ensures SalesExample().Column(0) == [Str("A"), Str("A"), Str("B")]
    ensures SalesExample().Column(1) == [Num(1.0), Num(2.0), Num(3.0)]
  {
  }

  lemma ExampleKeys(keys: seq<Cell>)
    requires keys == [Str("A"), Str("A"), Str("B")]
    ensures GroupKeys(keys) == [Str("A"), Str("B")]
  {
    var k2 := keys[..2];
    var k1 := k2[..1];
    assert k2 == [Str("A"), Str("A")] && k1 == [Str("A")] && k1[..0] == [];
    assert GroupKeys(k1) == InsertKey(Str("A"), []) == [Str("A")];
    assert GroupKeys(k2) == InsertKey(Str("A"), [Str("A")]) == [Str("A")];
    assert Str("B") != Str("A") by { assert "A"[0] != "B"[0]; }
    assert !StrLe("B", "A") by { assert "B"[0] != "A"[0]; }
    assert !CellLe(Str("B"), Str("A"));
    assert [Str("A")][1..] == [];
    assert GroupKeys(keys) == InsertKey(Str("B"), [Str("A")]) == [Str("A")] + InsertKey(Str("B"), []);
  }

  lemma ExampleGroups(keys: seq<Cell>, values: seq<Cell>)
    requires keys == [Str("A"), Str("A"), Str("B")] && values == [Num(1.0), Num(2.0), Num(3.0)]
    ensures GroupCells(keys, values, Str("A")) == [Num(1.0), Num(2.0)]
    ensures GroupCells(keys, values, Str("B")) == [Num(3.0)]
  {
    var k2, v2 := keys[..2], values[..2];
    var k1, v1 := k2[..1], v2[..1];
    assert k2 == [Str("A"), Str("A")] && v2 == [Num(1.0), Num(2.0)];
    assert k1 == [Str("A")] && v1 == [Num(1.0)];
    assert k1[..0] == [] && v1[..0] == [];
    assert Str("A") != Str("B") by { assert "A"[0] != "B"[0]; }
    assert GroupCells(k1, v1, Str("A")) == [Num(1.0)];
    assert GroupCells(k2, v2, Str("A")) == [Num(1.0), Num(2.0)];
    assert GroupCells(k1, v1, Str("B")) == [];
    assert GroupCells(k2, v2, Str("B")) == [];
  }

  lemma ExampleNumbers(cells: seq<Cell>)
    requires cells == [Num(1.0), Num(2.0)]
    ensures Numbers(cells) == [1.0, 2.0]
  {
    assert cells[..1] == [Num(1.0)] && cells[..1][..0] == [];
    assert Numbers(cells[..1][..0]) == [];
    assert Numbers(cells[..1]) == [1.0];
  }

  lemma ExampleSumOfTwo(xs: seq<real>)
    requires xs == [1.0, 2.0]
    ensures Numeric.Sum(xs) == 3.0
  {
    assert xs[..1] == [1.0] && xs[..1][..0] == [];
    assert Numeric.Sum(xs[..1][..0]) == 0.0;
    assert Numeric.Sum(xs[..1]) == 1.0;
  }

  lemma ExampleSumOfOne(cells: seq<Cell>)
    requires cells == [Num(3.0)]
    ensures Reduce(Sum, cells) == Num(3.0)
  {
    assert cells[..0] == [];
    assert Numbers(cells) == [3.0];
    var xs := [3.0];
    assert xs[..0] == [] && Numeric.Sum(xs[..0]) == 0.0;
    assert Numeric.Sum(xs) == 3.0;
  }

  lemma ExampleSums()
    ensures Reduce(Sum, [Num(1.0), Num(2.0)]) == Num(3.0)
    ensures Reduce(Sum, [Num(3.0)]) == Num(3.0)
  {
    ExampleNumbers([Num(1.0), Num(2.0)]);
    ExampleSumOfTwo([1.0, 2.0]);
    ExampleSumOfOne([Num(3.0)]);
  }

  /** The grouped records of the example. */
  lemma ExampleRecords(keys: seq<Cell>, values: seq<Cell>)
    requires keys == [Str("A"), Str("A"), Str("B")] && values == [Num(1.0), Num(2.0), Num(3.0)]
    ensures GroupRecords("g", "v_sum", Sum, keys, values)
      == [map["g" := Str("A")]["v_sum" := Num(3.0)], map["g" := Str("B")]["v_sum" := Num(3.0)]]
  {
    ExampleKeys(keys);
    ExampleGroups(keys, values);
    ExampleSums();
    PairRecord("g", "v_sum", Str("A"), Num(3.0));
    PairRecord("g", "v_sum", Str("B"), Num(3.0));
  }

  /** Summing `v` by `g` over A:1, A:2, B:3 gives A:3 and B:3. */
  lemma SumExample(lib: Library)
    ensures GroupAggregate(SalesExample(), "g", "v", Sum, lib)
      == Success([map["g" := Str("A")]["v_sum" := Num(3.0)], map["g" := Str("B")]["v_sum" := Num(3.0)]])
  {
    var t := SalesExample();
    ExampleColumns();
    assert IndexOf(t.columns, "g") == 0;
    assert IndexOf(t.columns, "v") == 1;
    assert FieldName("v", Sum) == "v_sum";
    var values := AggregatedValues(lib, t.Column(1), Sum);
    assert values == [Num(1.0), Num(2.0), Num(3.0)];
    ExampleRecords(t.Column(0), values);
  }
}
