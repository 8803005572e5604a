/** `DataAnalysisService.clean_data`: drop repeated and incomplete rows, then
    normalise every column of the copy in turn (numbers, trimmed lower-case
    text, or ISO dates), and report the row counts and a preview. */
module Cleaning {
  import opened Cells
  import opened Frames
  import opened RowFilters

  /** Whether `pd.to_numeric` can convert the cell: a number, a missing
      cell, or a text it reads as a number or as NaN. */
  predicate Convertible(lib: Library, c: Cell)
  {
    !c.Str? || !lib.parseNumber(c.text).Unparsable?
  }

  /** The text `astype(str).str.strip().str.lower()` makes of each cell. */
  function NormalizedTexts(lib: Library, cells: seq<Cell>): (texts: seq<string>)
    ensures |texts| == |cells|
    ensures forall i :: 0 <= i < |texts| ==> texts[i] == Normalize(AsText(lib, cells[i]))
  {
    seq(|cells|, i requires 0 <= i < |cells| => Normalize(AsText(lib, cells[i])))
  }

  /** `pd.to_datetime(texts, errors='ignore')`, cell by cell. */
  function ParseDates(lib: Library, texts: seq<string>): (parses: seq<DateParse>)
    ensures |parses| == |texts|
  {
    seq(|texts|, i requires 0 <= i < |texts| => lib.parseDate(texts, texts[i]))
  }

  /** Whether the column is rewritten as dates: every cell parses (errors
      return the column unchanged and `.dt` then raises, which is swallowed)
      and not every cell is NaT. */
  predicate IsDateColumn(parses: seq<DateParse>)
  {
    (forall i :: 0 <= i < |parses| ==> !parses[i].NotADate?) && (exists i :: 0 <= i < |parses| && parses[i].Date?)
  }

  /** `strftime('%Y-%m-%d')` of one parsed cell; NaT stays missing. */
  function DateCell(lib: Library, p: DateParse): Cell
  {
    match p
    case Date(stamp) => Str(lib.formatDate(stamp))
    case _ => Missing
  }

  /** The date column: each parsed cell formatted, NaT left missing. */
  function DateCells(lib: Library, parses: seq<DateParse>): (r: seq<Cell>)
    ensures |r| == |parses|
    ensures forall i :: 0 <= i < |r| ==> !r[i].Num? && (r[i].Missing? <==> !parses[i].Date?)
  {
    seq(|parses|, i requires 0 <= i < |parses| => DateCell(lib, parses[i]))
  }

  /** The text column: every cell the normalised text. */
  function TextCells(texts: seq<string>): (r: seq<Cell>)
    ensures |r| == |texts|
    ensures forall i :: 0 <= i < |r| ==> r[i] == Str(texts[i])
  {
    seq(|texts|, i requires 0 <= i < |texts| => Str(texts[i]))
  }

  predicate AllConvertible(lib: Library, cells: seq<Cell>)
  {
    forall i :: 0 <= i < |cells| ==> Convertible(lib, cells[i])
  }

  /** Whether the column, once it is text, is rewritten as dates. */
  predicate BecomesDates(lib: Library, cells: seq<Cell>)
  {
    IsDateColumn(ParseDates(lib, NormalizedTexts(lib, cells)))
  }

  /** One pass of the column loop.  A column whose every cell converts
      becomes numeric.  Any other column becomes trimmed lower-case text, and
      then dates when every text parses as one and not all of them are NaT. */
  function NormalizeColumn(lib: Library, cells: seq<Cell>): (r: (seq<Cell>, DType))
    ensures |r.0| == |cells|
    ensures r.1 == Numeric <==> AllConvertible(lib, cells)
    ensures r.1 == Object ==> forall i :: 0 <= i < |cells| ==> !r.0[i].Num?
    ensures r.1 == Object && !BecomesDates(lib, cells) ==>
              forall i :: 0 <= i < |cells| ==> r.0[i].Str? && Normalize(r.0[i].text) == r.0[i].text
  {
    if AllConvertible(lib, cells) then
      (CoerceColumn(lib, cells), Numeric)
    else
      var texts := NormalizedTexts(lib, cells);
      if BecomesDates(lib, cells) then
        (DateCells(lib, ParseDates(lib, texts)), Object)
      else
        NormalizedTextsAreNormal(lib, cells);
        (TextCells(texts), Object)
  }

  /** Cell by cell: a numeric column holds each cell's coercion; a text
      column each cell's text, stripped and lower-cased; a date column the
      date parsed from each cell's normalised text. */
  lemma NormalizeColumnCells(lib: Library, cells: seq<Cell>)
    ensures var r := NormalizeColumn(lib, cells);
      && (r.1 == Numeric ==> forall i :: 0 <= i < |cells| ==> r.0[i] == CoerceNumeric(lib, cells[i]))
      && (r.1 == Object && !BecomesDates(lib, cells) ==>
            forall i :: 0 <= i < |cells| ==> r.0[i] == Str(Normalize(AsText(lib, cells[i]))))
      && (r.1 == Object && BecomesDates(lib, cells) ==>
            var texts := NormalizedTexts(lib, cells);
            forall i :: 0 <= i < |cells| ==> r.0[i] == DateCell(lib, lib.parseDate(texts, texts[i])))
  {
  }

  /** A cell is missing after normalisation only if it was missing before,
      or it was text that pandas reads as NaN in a column that became
      numeric, or it became NaT in a column that became dates. */
  lemma NormalizeColumnMissing(lib: Library, cells: seq<Cell>)
    ensures var r := NormalizeColumn(lib, cells);
      forall i :: 0 <= i < |cells| && r.0[i].Missing? ==>
        || cells[i].Missing?
        || (r.1 == Numeric && cells[i].Str? && lib.parseNumber(cells[i].text).NotANumber?)
        || (r.1 == Object && BecomesDates(lib, cells))
  {
  }

  lemma NormalizedTextsAreNormal(lib: Library, cells: seq<Cell>)
    ensures forall i :: 0 <= i < |cells| ==> Normalize(NormalizedTexts(lib, cells)[i]) == NormalizedTexts(lib, cells)[i]
  {
    forall i | 0 <= i < |cells|
      ensures Normalize(NormalizedTexts(lib, cells)[i]) == NormalizedTexts(lib, cells)[i]
    {
      NormalizeIdempotent(AsText(lib, cells[i]));
    }
  }

  /** The frame after `drop_duplicates().dropna()`. */
  function Filtered(t: Table): (f: Table)
    requires t.WellFormed()
    ensures f.WellFormed() && f.columns == t.columns && f.dtypes == t.dtypes && f.rows == Kept(t.rows)
  {
    KeptSpec(t.rows);
    var f := Table(t.columns, t.dtypes, Kept(t.rows));
    forall i | 0 <= i < |f.rows|
      ensures |f.rows[i]| == |t.columns|
      ensures forall k :: 0 <= k < |t.columns| && t.dtypes[k] == Numeric ==> !f.rows[i][k].Str?
    {
      assert f.rows[i] in t.rows;
    }
    f
  }

  /** The table with its first `k` columns normalised, each on its own,
      and the rest as they were. */
  function NormalizedUpTo(lib: Library, t: Table, k: nat): (u: Table)
    requires t.WellFormed() && k <= |t.columns|
    ensures u.WellFormed() && u.columns == t.columns && |u.rows| == |t.rows|
    ensures forall j :: 0 <= j < |t.columns| ==>
      (u.Column(j), u.dtypes[j]) == if j < k then NormalizeColumn(lib, t.Column(j)) else (t.Column(j), t.dtypes[j])
  {
    var normal := seq(|t.columns|, j requires 0 <= j < |t.columns| =>
      if j < k then NormalizeColumn(lib, t.Column(j)) else (t.Column(j), t.dtypes[j]));
    var u := Table(t.columns, seq(|t.columns|, j requires 0 <= j < |t.columns| => normal[j].1),
                   seq(|t.rows|, i requires 0 <= i < |t.rows| => seq(|t.columns|, j requires 0 <= j < |t.columns| => normal[j].0[i])));
    assert forall j :: 0 <= j < |t.columns| ==> u.Column(j) == normal[j].0;
    u
  }

  /** No column normalised yet: the table itself. */
  lemma NormalizedUpToZero(lib: Library, t: Table)
    requires t.WellFormed()
    ensures NormalizedUpTo(lib, t, 0) == t
  {
    var u := NormalizedUpTo(lib, t, 0);
    assert u.dtypes == t.dtypes;
    ColumnsDetermineTable(u, t);
  }

  /** Normalising column `k` of the table whose first `k` columns are done
      gives the table whose first `k + 1` columns are done. */
  lemma NormalizedUpToStep(lib: Library, t: Table, k: nat)
    requires t.WellFormed() && k < |t.columns|
    ensures var u := NormalizedUpTo(lib, t, k);
      var r := NormalizeColumn(lib, u.Column(k));
      u.WithColumn(k, r.0, r.1) == NormalizedUpTo(lib, t, k + 1)
  {
    var u := NormalizedUpTo(lib, t, k);
    var r := NormalizeColumn(lib, u.Column(k));
    var v := u.WithColumn(k, r.0, r.1);
    var w := NormalizedUpTo(lib, t, k + 1);
    assert v.dtypes == w.dtypes;
    ColumnsDetermineTable(v, w);
  }

  /** The table clean_data ends with: every column of the filtered table
      normalised on its own. */
  function Cleaned(lib: Library, t: Table): (c: Table)
    requires t.WellFormed()
    ensures c.WellFormed() && c.columns == t.columns && |c.rows| == |Kept(t.rows)|
    ensures forall j :: 0 <= j < |t.columns| ==>
      (c.Column(j), c.dtypes[j]) == NormalizeColumn(lib, Filtered(t).Column(j))
  {
    NormalizedUpTo(lib, Filtered(t), |t.columns|)
  }

  /** The filters leave no missing cell, so a missing cell in the cleaned
      table comes from the normalisation: a text that `to_numeric` reads as
      NaN in a column that became numeric, or a NaT in a column rewritten as
      dates. */
  lemma CleanedMissingOrigins(lib: Library, t: Table, i: nat, j: nat)
    requires t.WellFormed() && i < |Kept(t.rows)| && j < |t.columns|
    requires Cleaned(lib, t).rows[i][j].Missing?
    ensures var cell := Filtered(t).rows[i][j];
      || (Cleaned(lib, t).dtypes[j] == Numeric && cell.Str? && lib.parseNumber(cell.text).NotANumber?)
      || (Cleaned(lib, t).dtypes[j] == Object && BecomesDates(lib, Filtered(t).Column(j)))
  {
    KeptSpec(t.rows);
    var f := Filtered(t);
    NormalizeColumnMissing(lib, f.Column(j));
    assert f.rows[i] in Kept(t.rows);
    assert Cleaned(lib, t).Column(j)[i] == Cleaned(lib, t).rows[i][j];
    assert f.Column(j)[i] == f.rows[i][j];
  }

  datatype CleanReport = CleanReport(
    status: string, originalRows: nat, cleanedRows: nat, removedRows: int, preview: seq<Record>)

  function MinNat(a: nat, b: nat): nat { if a < b then a else b }

  /** `clean_data(df)`: the caller's frame is left as it was; the report
      counts the rows before and after the two filters, the difference, and
      previews the first hundred cleaned rows in order. */
  method CleanData(df: DataFrame, lib: Library) returns (report: CleanReport)
    requires df.table.WellFormed()
    ensures report.status == "success"
    ensures report.originalRows == |df.table.rows|
    ensures report.cleanedRows == |Kept(df.table.rows)| <= report.originalRows
    ensures report.removedRows == report.originalRows - report.cleanedRows >= 0
    ensures |report.preview| == MinNat(100, report.cleanedRows)
    ensures forall i :: 0 <= i < |report.preview| ==> report.preview[i] == Records(Cleaned(lib, df.table))[i]
  {
    var t := df.table;
    var originalRows := |t.rows|;
    var f := Filtered(t);
    var cleaned := new DataFrame(f);
    NormalizedUpToZero(lib, f);
    var removedRows := originalRows - |cleaned.table.rows|;
    for k := 0 to |f.columns|
      invariant cleaned.table == NormalizedUpTo(lib, f, k)
    {
      var r := NormalizeColumn(lib, cleaned.table.Column(k));
      NormalizedUpToStep(lib, f, k);
      cleaned.Assign(k, r.0, r.1);
    }
    var records := Records(cleaned.table);
    report := CleanReport("success", originalRows, |cleaned.table.rows|, removedRows,
                          records[..MinNat(100, |records|)]);
  }

  // ---------------------------------------------------------------------
  // Scenarios
  // ---------------------------------------------------------------------

  /** A library whose text never reads as a number or a date. */
  function PlainText(): Library
  {
    Library(s => Unparsable, x => "", (col, s) => NotADate, ts => "", (a, b) => None, x => x, x => x)
  }

  lemma ExampleFilters(rows: seq<Row>)
    requires rows == [[Str("A")], [Str("a")]]
    ensures Kept(rows) == rows
  {
    assert [Str("A")] != [Str("a")] by { assert [Str("A")][0] != [Str("a")][0]; }
    assert rows[..1] == [[Str("A")]];
    assert DropDuplicates(rows[..1]) == [[Str("A")]];
    assert DropDuplicates(rows) == rows;
    assert DropNa(rows[..1]) == [[Str("A")]];
  }

  /** A one-letter text is already trimmed; normalising only lower-cases it. */
  lemma NormalizeLetter(c: char)
    requires 'A' <= c <= 'Z' || 'a' <= c <= 'z'
    ensures Normalize([c]) == [LowerChar(c)]
  {
    var s := [c];
    assert !IsSpace(s[0]);
    assert TrimStart(s) == s;
    assert TrimEnd(s) == s;
    assert Lower(s)[0] == LowerChar(c);
  }

  /** Trimming and lower-casing makes the same text of "A" and "a"; the
      library plays no part for text cells. */
  lemma NormalizeBothCases()
    ensures Normalize("A") == "a" && Normalize("a") == "a"
  {
    NormalizeLetter('A');
    NormalizeLetter('a');
  }

  lemma PairEquals<T>(s: seq<T>, x: T, y: T)
    requires |s| == 2 && s[0] == x && s[1] == y
    ensures s == [x, y]
  {
  }

  lemma ExampleTexts(lib: Library, cells: seq<Cell>)
    requires |cells| == 2 && cells[0] == Str("A") && cells[1] == Str("a")
    ensures NormalizedTexts(lib, cells) == ["a", "a"]
  {
    NormalizeBothCases();
    var texts := NormalizedTexts(lib, cells);
    assert texts[0] == Normalize("A") && texts[1] == Normalize("a");
    PairEquals(texts, "a", "a");
  }

  lemma ExampleColumnKind(lib: Library, cells: seq<Cell>)
    requires |cells| == 2 && cells[0] == Str("A") && cells[1] == Str("a")
    requires lib.parseNumber("A").Unparsable? && lib.parseDate(["a", "a"], "a") == NotADate
    ensures !AllConvertible(lib, cells) && !BecomesDates(lib, cells)
  {
    assert !Convertible(lib, cells[0]);
    ExampleTexts(lib, cells);
    var parses := ParseDates(lib, NormalizedTexts(lib, cells));
    assert parses[0] == NotADate;
  }

  /** The column ["A", "a"], which neither converts to numbers nor parses
      as dates, becomes ["a", "a"]. */
  lemma ExampleNormalize(lib: Library, cells: seq<Cell>)
    requires |cells| == 2 && cells[0] == Str("A") && cells[1] == Str("a")
    requires lib.parseNumber("A").Unparsable? && lib.parseDate(["a", "a"], "a") == NotADate
    ensures var r := NormalizeColumn(lib, cells);
      r.1 == Object && r.0[0] == Str("a") && r.0[1] == Str("a")
  {
    ExampleColumnKind(lib, cells);
    NormalizeColumnCells(lib, cells);
    NormalizeBothCases();
    assert AsText(lib, cells[0]) == "A" && AsText(lib, cells[1]) == "a";
  }

  /** A one-column table whose two rows differ only in case. */
  function CaseExample(): (t: Table)
    ensures t.WellFormed()
  {
    Table(["a"], [Object], [[Str("A")], [Str("a")]])
  }

  lemma ExampleFilteredColumn(t: Table)
    requires t == CaseExample()
    ensures var column := Filtered(t).Column(0);
      |column| == 2 && column[0] == Str("A") && column[1] == Str("a")
  {
    ExampleFilters(t.rows);
  }

  lemma ExampleCleanedColumn(lib: Library, t: Table)
    requires t == CaseExample()
    requires lib.parseNumber("A").Unparsable? && lib.parseDate(["a", "a"], "a") == NotADate
    ensures var column := Cleaned(lib, t).Column(0);
      |column| == 2 && column[0] == Str("a") && column[1] == Str("a")
  {
    ExampleFilteredColumn(t);
    ExampleNormalize(lib, Filtered(t).Column(0));
  }

  /** A one-column table is its column, one cell per row. */
  lemma SingleColumnRows(t: Table)
    requires t.WellFormed() && |t.columns| == 1
    ensures forall i :: 0 <= i < |t.rows| ==> t.rows[i] == [t.Column(0)[i]]
  {
    forall i | 0 <= i < |t.rows|
      ensures t.rows[i] == [t.Column(0)[i]]
    {
      assert |t.rows[i]| == 1;
    }
  }

  lemma ExampleCleaned(lib: Library, t: Table)
    requires t == CaseExample()
    requires lib.parseNumber("A").Unparsable? && lib.parseDate(["a", "a"], "a") == NotADate
    ensures var rows := Cleaned(lib, t).rows;
      |rows| == 2 && rows[0] == rows[1] && Complete(rows[0])
  {
    var c := Cleaned(lib, t);
    ExampleCleanedColumn(lib, t);
    SingleColumnRows(c);
    assert c.rows[0] == [Str("a")] == c.rows[1];
  }

  /** Two equal complete rows keep one between them. */
  lemma RepeatedRowCollapses(rows: seq<Row>)
    requires |rows| == 2 && rows[0] == rows[1] && Complete(rows[0])
    ensures |Kept(rows)| == 1
  {
    assert rows[..1] == [rows[0]] && rows[..1][..0] == [];
    assert DropDuplicates(rows) == [rows[0]];
    assert [rows[0]][..0] == [];
  }

  /** Two rows that differ only in case survive drop_duplicates and are
      equal after lower-casing, so cleaning the result again drops one
      more row: clean_data is not idempotent. */
  lemma CleaningIsNotIdempotent()
    ensures |Kept(CaseExample().rows)| == 2
    ensures |Kept(Cleaned(PlainText(), CaseExample()).rows)| == 1
  {
    var lib := PlainText();
    assert lib.parseNumber("A").Unparsable? && lib.parseDate(["a", "a"], "a") == NotADate;
    ExampleFilters(CaseExample().rows);
    ExampleCleaned(lib, CaseExample());
    RepeatedRowCollapses(Cleaned(lib, CaseExample()).rows);
  }

  /** Of three rows, the second copy of a repeated row and the row with a
      missing cell are removed: `clean_data` reports 3 original rows, 1
      cleaned row and 2 removed, and the survivor is the first row. */
  lemma CleanCountsExample(lib: Library)
    ensures var t := Table(["a", "b"], [Numeric, Numeric],
                           [[Num(1.0), Num(2.0)], [Num(1.0), Num(2.0)], [Num(2.0), Missing]]);
      && |t.rows| == 3 && Kept(t.rows) == [t.rows[0]]
      && |Kept(t.rows)| == 1 && |t.rows| - |Kept(t.rows)| == 2
  {
    var rows := [[Num(1.0), Num(2.0)], [Num(1.0), Num(2.0)], [Num(2.0), Missing]];
    assert rows[..2][..1] == [[Num(1.0), Num(2.0)]];
    assert rows[..2] == [[Num(1.0), Num(2.0)], [Num(1.0), Num(2.0)]];
    assert DropDuplicates(rows[..2]) == [[Num(1.0), Num(2.0)]];
    assert rows[2] !in rows[..2];
    assert DropDuplicates(rows) == [[Num(1.0), Num(2.0)], [Num(2.0), Missing]];
    assert !Complete([Num(2.0), Missing]) by { assert [Num(2.0), Missing][1].Missing?; }
    assert DropNa([[Num(1.0), Num(2.0)], [Num(2.0), Missing]][..1]) == [[Num(1.0), Num(2.0)]];
  }
}
