/** The in-memory table the service works on (a pandas DataFrame), the
    parts of pandas it calls without this model interpreting them, and the
    results and errors the service hands back. */
module Frames {
  import opened Cells

  datatype Option<T> = None | Some(value: T)

  /** The errors the service raises.  The frame is left as the operation had
      updated it when the error was raised. */
  datatype Error =
    | ColumnNotFound(column: string)   // sort_data and calculate_statistics: named column absent
    | WrongColumnName                  // group_and_aggregate and charts: a named column absent
    | MissingParameter                 // a bar, pie or line chart without label_col or value_col
    | UnsupportedChartType(chartType: string)
    | AggregationFailed                // group_and_aggregate: pandas failed inside the aggregation
    | ColumnAlreadyExists(column: string) // reset_index: the grouped column is also the key column
    | UnorderableLabels                // sort_values over labels that mix numbers and text

  datatype Result<T> = Success(value: T) | Failure(error: Error)

  /** The dtype pandas reports for a column: a numeric dtype (int64 or
      float64) or `object`. */
  datatype DType = Numeric | Object

  /** What `pd.to_numeric` makes of one text cell: a number, NaN (the empty
      text, "nan" and the like), or a failure. */
  datatype NumberParse = Number(value: real) | NotANumber | Unparsable

  /** What `pd.to_datetime` makes of one text cell. */
  datatype DateParse = NotADate | NaT | Date(stamp: Timestamp)

  /** A point in time, as pandas stores it (nanoseconds since the epoch). */
  datatype Timestamp = Timestamp(nanos: int)

  /** The pandas and Python computations this model leaves uninterpreted. */
  datatype Library = Library(
    parseNumber: string -> NumberParse,             // pd.to_numeric on one text cell
    numberText: real -> string,                     // str() of a number, as astype(str) writes it
    parseDate: (seq<string>, string) -> DateParse,  // pd.to_datetime on one cell, format inferred from its column
    formatDate: Timestamp -> string,                // strftime('%Y-%m-%d')
    pearson: (seq<Cell>, seq<Cell>) -> Option<real>, // Pearson r over two numeric columns; None is NaN
    sqrt: real -> real,                             // square root of a float
    round4: real -> real)                           // round(x, 4)

  type Row = seq<Cell>

  /** One row as `to_dict(orient='records')` writes it. */
  type Record = map<string, Cell>

  /** A DataFrame's content: column names, their dtypes, and the rows. */
  datatype Table = Table(columns: seq<string>, dtypes: seq<DType>, rows: seq<Row>)
  {
    /** What every frame pandas builds satisfies: one dtype per column, unique
        column names (the readers rename repeated headers), every row as wide
        as the header, and no text in a numeric column. */
    predicate WellFormed()
    {
      && |dtypes| == |columns|
      && (forall i, j :: 0 <= i < j < |columns| ==> columns[i] != columns[j])
      && (forall i :: 0 <= i < |rows| ==> |rows[i]| == |columns|)
      && (forall i, k :: 0 <= i < |rows| && 0 <= k < |columns| && dtypes[k] == Numeric ==> !rows[i][k].Str?)
    }

    /** `df[columns[k]]`. */
    function Column(k: nat): seq<Cell>
      requires WellFormed() && k < |columns|
    {
      seq(|rows|, i requires 0 <= i < |rows| => rows[i][k])
    }

    /** `df[columns[k]] = values`, the new column having dtype `dtype`. */
    function WithColumn(k: nat, values: seq<Cell>, dtype: DType): (t: Table)
      requires WellFormed() && k < |columns| && |values| == |rows|
      requires dtype == Numeric ==> forall i :: 0 <= i < |values| ==> !values[i].Str?
      ensures t.WellFormed() && t.columns == columns && |t.rows| == |rows|
      ensures t.Column(k) == values && t.dtypes[k] == dtype
      ensures forall j :: 0 <= j < |columns| && j != k ==> t.Column(j) == Column(j) && t.dtypes[j] == dtypes[j]
    {
      Table(columns, dtypes[k := dtype], seq(|rows|, i requires 0 <= i < |rows| => rows[i][k := values[i]]))
    }
  }

  /** A table is determined by its names, its dtypes and its columns. */
  lemma ColumnsDetermineTable(u: Table, v: Table)
    requires u.WellFormed() && v.WellFormed()
    requires u.columns == v.columns && u.dtypes == v.dtypes && |u.rows| == |v.rows|
    requires forall j :: 0 <= j < |u.columns| ==> u.Column(j) == v.Column(j)
    ensures u == v
  {
    forall i | 0 <= i < |u.rows|
      ensures u.rows[i] == v.rows[i]
    {
      forall j | 0 <= j < |u.columns|
        ensures u.rows[i][j] == v.rows[i][j]
      {
        assert u.Column(j)[i] == u.rows[i][j];
        assert v.Column(j)[i] == v.rows[i][j];
      }
    }
  }

  /** The position of a column name that is known to be present. */
  function IndexOf(columns: seq<string>, name: string): (k: nat)
    requires name in columns
    ensures k < |columns| && columns[k] == name
  {
    if columns[0] == name then 0 else 1 + IndexOf(columns[1..], name)
  }

  /** `pd.to_numeric(..., errors='coerce')` on one cell: numbers stay,
      text that pandas reads as a number becomes that number, and anything
      else (NaN text, or text that fails) becomes missing. */
  function CoerceNumeric(lib: Library, c: Cell): (r: Cell)
    ensures !r.Str?
    ensures c.Num? ==> r == c
    ensures c.Missing? ==> r.Missing?
    ensures c.Str? ==> (r.Num? <==> lib.parseNumber(c.text).Number?)
    ensures c.Str? && r.Num? ==> r.value == lib.parseNumber(c.text).value
  {
    match c
    case Missing => Missing
    case Num(_) => c
    case Str(s) => (match lib.parseNumber(s) case Number(x) => Num(x) case _ => Missing)
  }

  /** `pd.to_numeric(column, errors='coerce')`: each cell coerced on its own. */
  function CoerceColumn(lib: Library, cells: seq<Cell>): (r: seq<Cell>)
    ensures |r| == |cells|
    ensures forall i :: 0 <= i < |r| ==> !r[i].Str? && r[i] == CoerceNumeric(lib, cells[i])
  {
    seq(|cells|, i requires 0 <= i < |cells| => CoerceNumeric(lib, cells[i]))
  }

  /** `str(x)` of a cell, as `astype(str)` writes it: text is kept, a number
      is written by Python, and a missing cell (NaN) is written "nan". */
  function AsText(lib: Library, c: Cell): (s: string)
    ensures c.Str? ==> s == c.text
    ensures c.Missing? ==> s == "nan"
  {
    match c
    case Missing => "nan"
    case Num(x) => lib.numberText(x)
    case Str(s) => s
  }

  /** One row as a record: column name to cell.  A repeated name keeps its
      last cell, as `to_dict(orient='records')` does. */
  function ToRecord(columns: seq<string>, row: Row): (r: Record)
    requires |row| == |columns|
    ensures r.Keys == set name | name in columns
    decreases |columns|
  {
    if |columns| == 0 then map[]
    else ToRecord(columns[..|columns| - 1], row[..|row| - 1])[columns[|columns| - 1] := row[|row| - 1]]
  }

  /** Under each name the record holds the cell of the name's last
      occurrence: the cell of column k when no later column has its name. */
  lemma {:induction false} ToRecordAt(columns: seq<string>, row: Row, k: nat)
    requires |row| == |columns| && k < |columns|
    requires columns[k] !in columns[k + 1..]
    ensures columns[k] in ToRecord(columns, row) && ToRecord(columns, row)[columns[k]] == row[k]
    decreases |columns|
  {
    var n := |columns|;
    if k < n - 1 {
      assert columns[n - 1] in columns[k + 1..];
      assert columns[..n - 1][k + 1..] == columns[k + 1..n - 1];
      ToRecordAt(columns[..n - 1], row[..n - 1], k);
    }
  }

  /** `to_dict(orient='records')`. */
  function Records(t: Table): (r: seq<Record>)
    requires t.WellFormed()
    ensures |r| == |t.rows|
    ensures forall i :: 0 <= i < |r| ==> r[i].Keys == set name | name in t.columns
  {
    seq(|t.rows|, i requires 0 <= i < |t.rows| => ToRecord(t.columns, t.rows[i]))
  }

  /** `to_dict(orient='records')` puts each cell under its column's name. */
  lemma RecordsAt(t: Table, i: nat, k: nat)
    requires t.WellFormed() && i < |t.rows| && k < |t.columns|
    ensures Records(t)[i][t.columns[k]] == t.rows[i][k]
  {
    var later := t.columns[k + 1..];
    forall m | 0 <= m < |later|
      ensures later[m] != t.columns[k]
    {
      assert later[m] == t.columns[k + 1 + m];
    }
    ToRecordAt(t.columns, t.rows[i], k);
  }

  /** A pandas DataFrame: a table that the service's operations update in
      place with `df[column] = values`. */
  class DataFrame {
    var table: Table

    constructor (t: Table)
      ensures table == t
    {
      table := t;
    }

    /** `df[table.columns[k]] = values`. */
    method Assign(k: nat, values: seq<Cell>, dtype: DType)
      requires table.WellFormed() && k < |table.columns| && |values| == |table.rows|
      requires dtype == Numeric ==> forall i :: 0 <= i < |values| ==> !values[i].Str?
      modifies this
      ensures table == old(table).WithColumn(k, values, dtype)
    {
      table := table.WithColumn(k, values, dtype);
    }
  }
}
