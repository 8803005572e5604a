/** `DataAnalysisService.sort_data`: the rows of a frame ordered by one
    column. */
module TableSort {
  import opened Cells
  import opened Frames
  import opened Sorting

  /** The cell a record holds under `column` (missing if it has none). */
  function Field(column: string): Record -> Cell
  {
    rec => if column in rec then rec[column] else Missing
  }

  /** Whether `sort_values` can compare the column's cells with each other:
      not a number beside a piece of text (missing cells are set aside). */
  predicate Comparable(cells: seq<Cell>)
  {
    (forall i :: 0 <= i < |cells| ==> !cells[i].Str?) || (forall i :: 0 <= i < |cells| ==> !cells[i].Num?)
  }

  /** `df.astype(str)`: every cell replaced by its text. */
  function Stringified(lib: Library, t: Table): (s: Table)
    requires t.WellFormed()
    ensures s.WellFormed() && s.columns == t.columns && |s.rows| == |t.rows|
    ensures forall k :: 0 <= k < |s.dtypes| ==> s.dtypes[k] == Object
    ensures forall i, k :: 0 <= i < |s.rows| && 0 <= k < |s.columns| ==> s.rows[i][k] == Str(AsText(lib, t.rows[i][k]))
  {
    Table(t.columns, seq(|t.dtypes|, k => Object),
          seq(|t.rows|, i requires 0 <= i < |t.rows| =>
            seq(|t.rows[i]|, k requires 0 <= k < |t.rows[i]| => Str(AsText(lib, t.rows[i][k])))))
  }

  /** The table that is actually sorted: the frame itself, or its text form
      when the column mixes numbers and text and the first sort raised. */
  function SortSource(lib: Library, t: Table, column: string): (s: Table)
    requires t.WellFormed() && column in t.columns
    ensures s.WellFormed() && s.columns == t.columns && |s.rows| == |t.rows|
    ensures Comparable(t.Column(IndexOf(t.columns, column))) ==> s == t
    ensures !Comparable(t.Column(IndexOf(t.columns, column))) ==>
      forall i, k :: 0 <= i < |s.rows| && 0 <= k < |s.columns| ==> s.rows[i][k] == Str(AsText(lib, t.rows[i][k]))
    ensures Comparable(s.Column(IndexOf(s.columns, column)))
  {
    if Comparable(t.Column(IndexOf(t.columns, column))) then t else Stringified(lib, t)
  }

  /** `sort_data(df, column, ascending)`: an absent column raises; otherwise
      the records of the frame (or of its text form, when the column mixes
      numbers and text), in an order that sorts `column` ascending or
      descending with missing cells last. */
  function SortData(t: Table, column: string, ascending: bool, lib: Library): (r: Result<seq<Record>>)
    requires t.WellFormed()
    ensures r.Failure? <==> column !in t.columns
    ensures r.Failure? ==> r.error == ColumnNotFound(column)
    ensures r.Success? ==>
      && column in t.columns
      && multiset(r.value) == multiset(Records(SortSource(lib, t, column)))
      && |r.value| == |t.rows|
      && (forall i :: 0 <= i < |r.value| ==> r.value[i].Keys == set name | name in t.columns)
      && SortedBy(r.value, Field(column), ascending)
  {
    if column !in t.columns then Failure(ColumnNotFound(column))
    else
      var records := Records(SortSource(lib, t, column));
      SortBySorts(records, Field(column), ascending);
      var sorted := SortBy(records, Field(column), ascending);
      assert forall i :: 0 <= i < |sorted| ==> sorted[i] in multiset(records);
      Success(sorted)
  }

  /** Sorting by the record field is sorting by the column's cells. */
  lemma FieldOfRecords(t: Table, i: nat, k: nat)
    requires t.WellFormed() && i < |t.rows| && k < |t.columns|
    ensures Field(t.columns[k])(Records(t)[i]) == t.rows[i][k]
  {
    RecordsAt(t, i, k);
  }
}
