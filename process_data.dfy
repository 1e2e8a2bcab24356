/**
 * Cleaning the merged raw data into the dataset (src/data/process_data.py).
 *
 * The stage drops rows with a repeated timestamp (keeping the last), fills
 * the nulls of every numeric column with that column's median, adds the
 * "category" column computed from "eu_aqi", and appends the rows of new
 * calendar days to the dataset file.
 *
 * Which columns are numeric (`select_dtypes(include=[np.number])`) and the
 * median itself are parameters: the median is an opaque function of the
 * column's non-null numbers.
 */
module ProcessData {
  import opened Frames
  import opened CsvStore

  const EuAqi: string := "eu_aqi"
  const CategoryColumn: string := "category"

  // ---------------------------------------------------------------------
  // categorize_aqi
  // ---------------------------------------------------------------------

  /** The six bands of the European air quality index. */
  datatype AqiCategory = Good | Fair | Moderate | Poor | VeryPoor | ExtremelyPoor

  /** The label stored in the "category" column. */
  function Label(c: AqiCategory): string
  {
    match c
    case Good => "good"
    case Fair => "fair"
    case Moderate => "moderate"
    case Poor => "poor"
    case VeryPoor => "very poor"
    case ExtremelyPoor => "extremely poor"
  }

  /** How bad a band is, from 0 (good) to 5 (extremely poor). */
  function Severity(c: AqiCategory): nat
  {
    match c
    case Good => 0
    case Fair => 1
    case Moderate => 2
    case Poor => 3
    case VeryPoor => 4
    case ExtremelyPoor => 5
  }

  /** The inclusive upper bound of the band of severity k, for k < 5. */
  function UpperBound(k: nat): real
  {
    20.0 * (k + 1) as real
  }

  /** categorize_aqi(aqi): the band of an index value.  Each bound is
      inclusive, and everything above 100 is "extremely poor". */
  function CategorizeAqi(aqi: real): (c: AqiCategory)
    ensures forall k: nat :: k < 5 ==> (Severity(c) <= k <==> aqi <= UpperBound(k))
    ensures c == ExtremelyPoor <==> aqi > 100.0
  {
    if aqi <= 20.0 then Good
    else if aqi <= 40.0 then Fair
    else if aqi <= 60.0 then Moderate
    else if aqi <= 80.0 then Poor
    else if aqi <= 100.0 then VeryPoor
    else ExtremelyPoor
  }

  /** A higher index never gives a better band. */
  lemma CategorizeAqiMonotone(a: real, b: real)
    requires a <= b
    ensures Severity(CategorizeAqi(a)) <= Severity(CategorizeAqi(b))
  {
    var k := Severity(CategorizeAqi(b));
    if k < 5 {
      assert b <= UpperBound(k);
    }
  }

  /** The label names the band unambiguously. */
  lemma LabelsDistinct(c: AqiCategory, d: AqiCategory)
    requires Label(c) == Label(d)
    ensures c == d
  {
    match c
    case Good => assert Label(c)[0] == 'g';
    case Fair => assert Label(c)[0] == 'f';
    case Moderate => assert Label(c)[0] == 'm';
    case Poor => assert Label(c) == "poor";
    case VeryPoor => assert Label(c)[0] == 'v';
    case ExtremelyPoor => assert Label(c)[0] == 'e';
  }

  /** The band of an "eu_aqi" cell, read through the comparisons
      categorize_aqi makes.  A null (NaN) satisfies no `<=`, so it lands past
      every bound, in "extremely poor". */
  function CategoryOf(cell: Cell): (c: AqiCategory)
    ensures forall k: nat :: k < 5 ==> (Severity(c) <= k <==> cell.Num? && cell.value <= UpperBound(k))
    ensures c == ExtremelyPoor <==> !cell.Num? || cell.value > 100.0
  {
    match cell
    case Num(v) => CategorizeAqi(v)
    case _ =>
      assert Severity(ExtremelyPoor) == 5;
      ExtremelyPoor
  }

  /** A row with its "category" cell set from its "eu_aqi" cell. */
  function Categorized(r: Row): Row
  {
    Row(r.date, r.cells[CategoryColumn := Text(Label(CategoryOf(CellAt(r, EuAqi))))])
  }

  /** df["category"] = df["eu_aqi"].apply(categorize_aqi) */
  function WithCategory(rows: seq<Row>): (r: seq<Row>)
    ensures |r| == |rows|
    ensures forall i :: 0 <= i < |rows| ==>
              r[i].date == rows[i].date &&
              CellAt(r[i], CategoryColumn) == Text(Label(CategoryOf(CellAt(rows[i], EuAqi)))) &&
              forall c :: c != CategoryColumn ==> CellAt(r[i], c) == CellAt(rows[i], c)
  {
    seq(|rows|, i requires 0 <= i < |rows| => Categorized(rows[i]))
  }

  // ---------------------------------------------------------------------
  // Filling nulls with the column median
  // ---------------------------------------------------------------------

  /** Some row has a null in the column (`isnull().any()`). */
  predicate HasNull(rows: seq<Row>, column: string)
  {
    exists i :: 0 <= i < |rows| && CellAt(rows[i], column).Null?
  }

  /** fillna(value) on one column. */
  function FillColumn(rows: seq<Row>, column: string, value: real): (r: seq<Row>)
    ensures |r| == |rows|
    ensures forall i :: 0 <= i < |rows| ==>
              r[i].date == rows[i].date &&
              CellAt(r[i], column) == (if CellAt(rows[i], column).Null? then Num(value) else CellAt(rows[i], column)) &&
              forall c :: c != column ==> CellAt(r[i], c) == CellAt(rows[i], c)
  {
    seq(|rows|, i requires 0 <= i < |rows| =>
      if CellAt(rows[i], column).Null? then Row(rows[i].date, rows[i].cells[column := Num(value)]) else rows[i])
  }

  /** One turn of the loop: a column with nulls gets them replaced by its
      median.  A column with only nulls has a NaN median, and filling with
      NaN changes nothing. */
  function FillStep(rows: seq<Row>, column: string, median: seq<real> -> real): seq<Row>
  {
    if HasNull(rows, column) && ColumnValues(rows, column) != [] then
      FillColumn(rows, column, median(ColumnValues(rows, column)))
    else rows
  }

  /** The frame after the loop has handled `columns`, in order.  The loop
      keeps every row and its timestamp and changes no cell that holds a
      value. */
  function FillAll(rows: seq<Row>, columns: seq<string>, median: seq<real> -> real): (filled: seq<Row>)
    ensures |filled| == |rows|
    ensures forall i :: 0 <= i < |rows| ==> filled[i].date == rows[i].date
    ensures forall i, c :: 0 <= i < |rows| && !CellAt(rows[i], c).Null? ==> CellAt(filled[i], c) == CellAt(rows[i], c)
  {
    if columns == [] then rows
    else FillStep(FillAll(rows, columns[..|columns| - 1], median), columns[|columns| - 1], median)
  }

  /** The loop over the numeric columns. */
  method FillNulls(rows: seq<Row>, numericColumns: seq<string>, median: seq<real> -> real)
    returns (filled: seq<Row>)
    ensures filled == FillAll(rows, numericColumns, median)
  {
    filled := rows;
    var i := 0;
    while i < |numericColumns|
      invariant 0 <= i <= |numericColumns|
      invariant filled == FillAll(rows, numericColumns[..i], median)
    {
      var column := numericColumns[i];
      if HasNull(filled, column) {
        var values := ColumnValues(filled, column);
        if values != [] {
          filled := FillColumn(filled, column, median(values));
        }
      }
      assert numericColumns[..i + 1][..i] == numericColumns[..i];
      i := i + 1;
    }
    assert numericColumns[..i] == numericColumns;
  }

  predicate Distinct(columns: seq<string>)
  {
    forall i, j :: 0 <= i < j < |columns| ==> columns[i] != columns[j]
  }

  /** The cell a null fill leaves: a null of a listed column that has some
      number becomes the median of that column's numbers; every other cell
      stays as it was. */
  function FilledCell(rows: seq<Row>, i: int, c: string, columns: seq<string>, median: seq<real> -> real): Cell
    requires 0 <= i < |rows|
  {
    if c in columns && CellAt(rows[i], c).Null? && ColumnValues(rows, c) != []
    then Num(median(ColumnValues(rows, c)))
    else CellAt(rows[i], c)
  }

  /** The null fill, cell by cell: it keeps the rows and their timestamps,
      replaces the nulls of each listed column by the median of that
      column's original numbers, and changes nothing else.  Afterwards a
      listed column has no nulls unless it had no numbers at all. */
  lemma {:induction false} FillAllSpec(rows: seq<Row>, columns: seq<string>, median: seq<real> -> real)
    requires Distinct(columns)
    ensures |FillAll(rows, columns, median)| == |rows|
    ensures forall i :: 0 <= i < |rows| ==> FillAll(rows, columns, median)[i].date == rows[i].date
    ensures forall i, c :: 0 <= i < |rows| ==>
              CellAt(FillAll(rows, columns, median)[i], c) == FilledCell(rows, i, c, columns, median)
    ensures forall i, c :: 0 <= i < |rows| && c in columns && ColumnValues(rows, c) != [] ==>
              !CellAt(FillAll(rows, columns, median)[i], c).Null?
  {
    if columns != [] {
      var init := columns[..|columns| - 1];
      var last := columns[|columns| - 1];
      assert Distinct(init);
      FillAllSpec(rows, init, median);
      var mid := FillAll(rows, init, median);
      assert last !in init;
      forall i | 0 <= i < |rows| ensures CellAt(mid[i], last) == CellAt(rows[i], last) {
        assert CellAt(mid[i], last) == FilledCell(rows, i, last, init, median);
      }
      SameColumnSameValues(mid, rows, last);
      var after := FillAll(rows, columns, median);
      forall i, c | 0 <= i < |rows| ensures CellAt(after[i], c) == FilledCell(rows, i, c, columns, median) {
        assert CellAt(mid[i], c) == FilledCell(rows, i, c, init, median);
        if c != last {
          assert c in columns <==> c in init;
        }
      }
    }
  }

  // ---------------------------------------------------------------------
  // process_data
  // ---------------------------------------------------------------------

  /** The frame the stage hands to the append step: one row per distinct
      timestamp of the input. */
  function Processed(input: seq<Row>, numericColumns: seq<string>, median: seq<real> -> real): (out: seq<Row>)
    ensures |out| == |DatesOf(input)|
  {
    UniqueDatesCount(KeepLast(input));
    WithCategory(FillAll(KeepLast(input), numericColumns, median))
  }

  /** The processed frame has exactly the input's timestamps, each once,
      and every row carries a category label. */
  lemma ProcessedRows(input: seq<Row>, numericColumns: seq<string>, median: seq<real> -> real)
    ensures var out := Processed(input, numericColumns, median);
            DatesOf(out) == DatesOf(input) && UniqueDates(out) &&
            forall x :: x in out ==> exists c :: CellAt(x, CategoryColumn) == Text(Label(c))
  {
    var deduped := KeepLast(input);
    var filled := FillAll(deduped, numericColumns, median);
    var out := Processed(input, numericColumns, median);
    assert forall i :: 0 <= i < |out| ==> out[i].date == deduped[i].date;
    forall t | t in DatesOf(out) ensures t in DatesOf(deduped) {
      var x :| x in out && x.date == t;
      var i :| 0 <= i < |out| && out[i] == x;
      assert deduped[i] in deduped;
    }
    forall t | t in DatesOf(deduped) ensures t in DatesOf(out) {
      var x :| x in deduped && x.date == t;
      var i :| 0 <= i < |deduped| && deduped[i] == x;
      assert out[i] in out;
    }
    forall x | x in out ensures exists c :: CellAt(x, CategoryColumn) == Text(Label(c)) {
      var i :| 0 <= i < |out| && out[i] == x;
      assert CellAt(x, CategoryColumn) == Text(Label(CategoryOf(CellAt(filled[i], EuAqi))));
    }
  }

  /** process_data(input, output): clean the input and append its new days
      to the dataset file. */
  method ProcessData(input: seq<Row>, numericColumns: seq<string>, median: seq<real> -> real,
                     output: CsvFile)
    returns (outcome: SaveOutcome)
    modifies output
    ensures output.present
    ensures output.rows == Stored(old(output.Content()), Processed(input, numericColumns, median))
    ensures !old(output.present) ==> outcome == FirstSave
    ensures old(output.present) ==>
              var newRows := RowsOnNewDays(old(output.rows), Processed(input, numericColumns, median));
              outcome == (if newRows == [] then NothingNew else Appended(|newRows|))
  {
    var deduped := KeepLast(input);
    var filled := FillNulls(deduped, numericColumns, median);
    var categorized := WithCategory(filled);
    outcome := output.UpdateOrAppend(categorized);
  }
}
