/** `DataAnalysisService.calculate_statistics` (descriptive statistics of
    one column) and `calculate_correlation` (the Pearson matrix of the
    numeric columns). */
module StatisticsEngine {
  import opened Cells
  import opened Frames
  import opened Numeric

  datatype Statistics = Statistics(
    count: nat, mean: real, median: real, max: real, min: real,
    std: Option<real>, variance: Option<real>)   // None where pandas gives NaN

  /** The statistics, or the error payload returned when no cell of the
      column is a number. */
  datatype StatsOutcome = NoValidNumericData | Stats(stats: Statistics)

  /** The correlation result, or the error payload returned when the frame
      has fewer than two numeric columns. */
  datatype CorrelationOutcome =
    | InsufficientNumericColumns
    | Correlation(columns: seq<string>, data: seq<seq<Option<real>>>)

  /** The positions of the cells that `to_numeric(errors='coerce')` turns
      into numbers. */
  function CoercibleAt(lib: Library, cells: seq<Cell>): set<nat>
  {
    set i: nat | i < |cells| && CoerceNumeric(lib, cells[i]).Num?
  }

  /** `pd.to_numeric(cells, errors='coerce').dropna()`. */
  function NumericValues(lib: Library, cells: seq<Cell>): seq<real>
    decreases |cells|
  {
    if |cells| == 0 then []
    else
      var init := NumericValues(lib, cells[..|cells| - 1]);
      match CoerceNumeric(lib, cells[|cells| - 1])
      case Num(x) => init + [x]
      case _ => init
  }

  /** Coercion keeps one value per coercible cell. */
  lemma {:induction false} NumericValuesCount(lib: Library, cells: seq<Cell>)
    ensures |NumericValues(lib, cells)| == |CoercibleAt(lib, cells)|
    decreases |cells|
  {
    if |cells| > 0 {
      var n := |cells| - 1;
      var init := cells[..n];
      NumericValuesCount(lib, init);
      if CoerceNumeric(lib, cells[n]).Num? {
        assert CoercibleAt(lib, cells) == CoercibleAt(lib, init) + {n};
      } else {
        assert CoercibleAt(lib, cells) == CoercibleAt(lib, init);
      }
    }
  }

  /** Coercion keeps exactly the numbers the cells convert to. */
  lemma {:induction false} NumericValuesMembers(lib: Library, cells: seq<Cell>, x: real)
    ensures x in NumericValues(lib, cells) <==>
              exists i :: 0 <= i < |cells| && CoerceNumeric(lib, cells[i]) == Num(x)
    decreases |cells|
  {
    if |cells| > 0 {
      var n := |cells| - 1;
      var init := cells[..n];
      NumericValuesMembers(lib, init, x);
      if x in NumericValues(lib, cells) {
        if x in NumericValues(lib, init) {
          var i :| 0 <= i < |init| && CoerceNumeric(lib, init[i]) == Num(x);
          assert cells[i] == init[i];
        } else {
          assert CoerceNumeric(lib, cells[n]) == Num(x);
        }
      } else {
        forall i | 0 <= i < |cells|
          ensures CoerceNumeric(lib, cells[i]) != Num(x)
        {
          if i < n {
            assert cells[i] == init[i];
          }
        }
      }
    }
  }

  /** `calculate_statistics(df, column)`: an absent column raises; a column
      with no number after coercion gives the error payload; otherwise the
      count is the number of coercible cells, the minimum, maximum, mean and
      median are those of the coerced values, and the mean and the median lie
      between the minimum and the maximum. */
  function CalculateStatistics(t: Table, column: string, lib: Library): (r: Result<StatsOutcome>)
    requires t.WellFormed()
    ensures r.Failure? <==> column !in t.columns
    ensures r.Failure? ==> r.error == ColumnNotFound(column)
    ensures column in t.columns ==>
      var coercible := CoercibleAt(lib, t.Column(IndexOf(t.columns, column)));
      && (r == Success(NoValidNumericData) <==> |coercible| == 0)
      && (r.Success? && r.value.Stats? ==>
            var s := r.value.stats;
            var xs := NumericValues(lib, t.Column(IndexOf(t.columns, column)));
            && |xs| > 0
            && s.min == Min(xs) && s.max == Max(xs) && s.mean == Mean(xs) && s.median == Median(xs)
            && s.variance == SampleVariance(xs)
            && s.count == |coercible|
            && s.min <= s.median <= s.max
            && s.min <= s.mean <= s.max
            && (s.variance.Some? <==> s.count >= 2)
            && (s.variance.Some? ==> s.variance.value >= 0.0)
            && (s.std.Some? <==> s.variance.Some?)
            && s.std == (if s.variance.Some? then Some(lib.sqrt(s.variance.value)) else None))
  {
    if column !in t.columns then Failure(ColumnNotFound(column))
    else
      var cells := t.Column(IndexOf(t.columns, column));
      var xs := NumericValues(lib, cells);
      NumericValuesCount(lib, cells);
      if |xs| == 0 then Success(NoValidNumericData)
      else
        MeanBounds(xs);
        MedianBounds(xs);
        VarianceNonNegative(xs);
        var v := SampleVariance(xs);
        var std := match v case Some(x) => Some(lib.sqrt(x)) case None => None;
        Success(Stats(Statistics(|xs|, Mean(xs), Median(xs), Max(xs), Min(xs), std, v)))
  }

  /** The positions of the numeric columns: `select_dtypes(include=[np.number])`. */
  function NumericIndices(dtypes: seq<DType>): (ks: seq<nat>)
    ensures forall m :: 0 <= m < |ks| ==> ks[m] < |dtypes| && dtypes[ks[m]] == Numeric
    ensures forall m, l :: 0 <= m < l < |ks| ==> ks[m] < ks[l]
    ensures forall k :: 0 <= k < |dtypes| && dtypes[k] == Numeric ==> k in ks
    decreases |dtypes|
  {
    if |dtypes| == 0 then []
    else
      var n := |dtypes| - 1;
      var init := NumericIndices(dtypes[..n]);
      if dtypes[n] == Numeric then init + [n] else init
  }

  function Larger(i: nat, j: nat): nat { if i < j then j else i }
  function Smaller(i: nat, j: nat): nat { if i < j then i else j }

  /** `numeric_df.corr()`: pandas computes each pair once, for the later
      column against the earlier one, and writes it to both cells. */
  function CorrelationMatrix(t: Table, ks: seq<nat>, lib: Library): seq<seq<Option<real>>>
    requires t.WellFormed()
    requires forall m :: 0 <= m < |ks| ==> ks[m] < |t.columns|
  {
    seq(|ks|, i requires 0 <= i < |ks| =>
      seq(|ks|, j requires 0 <= j < |ks| =>
        lib.pearson(t.Column(ks[Larger(i, j)]), t.Column(ks[Smaller(i, j)]))))
  }

  /** `calculate_correlation(df)`: with fewer than two numeric columns, the
      error payload; otherwise the numeric columns in table order and a
      square, symmetric matrix over them. */
  function CalculateCorrelation(t: Table, lib: Library): (r: CorrelationOutcome)
    requires t.WellFormed()
    ensures r.InsufficientNumericColumns? <==> |NumericIndices(t.dtypes)| < 2
    ensures r.Correlation? ==>
      var n := |r.columns|;
      && n >= 2
      && (forall m :: 0 <= m < n ==> r.columns[m] in t.columns && t.dtypes[IndexOf(t.columns, r.columns[m])] == Numeric)
      && (forall k :: 0 <= k < |t.columns| && t.dtypes[k] == Numeric ==> t.columns[k] in r.columns)
      && (forall a, b :: 0 <= a < b < n ==> IndexOf(t.columns, r.columns[a]) < IndexOf(t.columns, r.columns[b]))
      && |r.data| == n
      && (forall i :: 0 <= i < n ==> |r.data[i]| == n)
      && (forall i, j :: 0 <= i < n && 0 <= j < n ==> r.data[i][j] == r.data[j][i])
  {
    var ks := NumericIndices(t.dtypes);
    if |ks| < 2 then InsufficientNumericColumns
    else
      var names := NumericNames(t, ks);
      NumericNamesSpec(t, ks);
      MatrixSymmetric(t, ks, lib);
      Correlation(names, CorrelationMatrix(t, ks, lib))
  }

  /** The names of the columns at positions `ks`. */
  function NumericNames(t: Table, ks: seq<nat>): seq<string>
    requires forall m :: 0 <= m < |ks| ==> ks[m] < |t.columns|
  {
    seq(|ks|, m requires 0 <= m < |ks| => t.columns[ks[m]])
  }

  lemma IndexOfNames(t: Table, ks: seq<nat>)
    requires t.WellFormed()
    requires forall m :: 0 <= m < |ks| ==> ks[m] < |t.columns|
    ensures forall m :: 0 <= m < |ks| ==> IndexOf(t.columns, t.columns[ks[m]]) == ks[m]
  {
    forall m | 0 <= m < |ks|
      ensures IndexOf(t.columns, t.columns[ks[m]]) == ks[m]
    {
      var p := IndexOf(t.columns, t.columns[ks[m]]);
      assert t.columns[p] == t.columns[ks[m]];
    }
  }

  /** The names of the numeric columns are exactly those columns, in table order. */
  lemma NumericNamesSpec(t: Table, ks: seq<nat>)
    requires t.WellFormed() && ks == NumericIndices(t.dtypes)
    ensures var names := NumericNames(t, ks);
      && (forall m :: 0 <= m < |names| ==> names[m] in t.columns && t.dtypes[IndexOf(t.columns, names[m])] == Numeric)
      && (forall k :: 0 <= k < |t.columns| && t.dtypes[k] == Numeric ==> t.columns[k] in names)
      && (forall a, b :: 0 <= a < b < |names| ==> IndexOf(t.columns, names[a]) < IndexOf(t.columns, names[b]))
  {
    var names := NumericNames(t, ks);
    IndexOfNames(t, ks);
    forall k | 0 <= k < |t.columns| && t.dtypes[k] == Numeric
      ensures t.columns[k] in names
    {
      var m :| 0 <= m < |ks| && ks[m] == k;
      assert names[m] == t.columns[k];
    }
  }

  /** Entry (i, j) is Pearson's coefficient of the columns named i and j,
      the later one first. */
  lemma MatrixEntries(t: Table, ks: seq<nat>, lib: Library)
    requires t.WellFormed()
    requires forall m :: 0 <= m < |ks| ==> ks[m] < |t.columns|
    ensures var d := CorrelationMatrix(t, ks, lib);
      var names := NumericNames(t, ks);
      forall i, j :: 0 <= i < |ks| && 0 <= j < |ks| ==>
        d[i][j] == lib.pearson(t.Column(IndexOf(t.columns, names[Larger(i, j)])),
                               t.Column(IndexOf(t.columns, names[Smaller(i, j)])))
  {
    IndexOfNames(t, ks);
  }

  /** Entry (i, j) of the correlation is Pearson's coefficient of the
      columns labelled `columns[i]` and `columns[j]`, the later one first. */
  lemma CorrelationEntries(t: Table, lib: Library)
    requires t.WellFormed()
    requires CalculateCorrelation(t, lib).Correlation?
    ensures var r := CalculateCorrelation(t, lib);
      forall i, j :: 0 <= i < |r.columns| && 0 <= j < |r.columns| ==>
        r.data[i][j] == lib.pearson(t.Column(IndexOf(t.columns, r.columns[Larger(i, j)])),
                                    t.Column(IndexOf(t.columns, r.columns[Smaller(i, j)])))
  {
    MatrixEntries(t, NumericIndices(t.dtypes), lib);
  }

  lemma MatrixSymmetric(t: Table, ks: seq<nat>, lib: Library)
    requires t.WellFormed()
    requires forall m :: 0 <= m < |ks| ==> ks[m] < |t.columns|
    ensures var d := CorrelationMatrix(t, ks, lib);
      && |d| == |ks|
      && (forall i :: 0 <= i < |ks| ==> |d[i]| == |ks|)
      && (forall i, j :: 0 <= i < |ks| && 0 <= j < |ks| ==> d[i][j] == d[j][i])
  {
    var d := CorrelationMatrix(t, ks, lib);
    forall i, j | 0 <= i < |ks| && 0 <= j < |ks|
      ensures d[i][j] == d[j][i]
    {
      assert Larger(i, j) == Larger(j, i) && Smaller(i, j) == Smaller(j, i);
    }
  }

  // ---------------------------------------------------------------------
  // Example
  // ---------------------------------------------------------------------

  lemma ExampleValues(lib: Library, cells: seq<Cell>)
    requires lib.parseNumber("3") == Number(3.0) && lib.parseNumber("5") == Number(5.0) && lib.parseNumber("x") == Unparsable
    requires cells == [Str("3"), Str("x"), Str("5")]
    ensures NumericValues(lib, cells) == [3.0, 5.0]
  {
    var c2 := cells[..2];
    var c1 := c2[..1];
    assert c2 == [Str("3"), Str("x")] && c1 == [Str("3")] && c1[..0] == [];
    assert NumericValues(lib, c1) == [3.0];
    assert NumericValues(lib, c2) == [3.0];
  }

  /** Describing a column holding "3", "x" and "5": the text that is not a
      number is skipped, leaving two values with mean 4, minimum 3 and
      maximum 5. */
  lemma StatisticsExample(lib: Library)
    requires lib.parseNumber("3") == Number(3.0) && lib.parseNumber("5") == Number(5.0) && lib.parseNumber("x") == Unparsable
    ensures var r := CalculateStatistics(Table(["b"], [Object], [[Str("3")], [Str("x")], [Str("5")]]), "b", lib);
      && r.Success? && r.value.Stats?
      && r.value.stats.count == 2 && r.value.stats.mean == 4.0
      && r.value.stats.min == 3.0 && r.value.stats.max == 5.0
  {
    var t := Table(["b"], [Object], [[Str("3")], [Str("x")], [Str("5")]]);
    assert t.WellFormed();
    assert IndexOf(t.columns, "b") == 0;
    assert t.Column(0) == [Str("3"), Str("x"), Str("5")];
    ExampleValues(lib, t.Column(0));
    var xs := [3.0, 5.0];
    assert xs[..1] == [3.0] && xs[..1][..0] == [] && xs[1..] == [5.0];
    assert Sum(xs) == 8.0;
    assert Mean(xs) == 4.0;
  }
}
