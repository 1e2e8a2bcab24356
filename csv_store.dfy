/**
 * A CSV file of timestamped rows that a pipeline stage extends with new
 * rows, one calendar day at a time (`update_or_append_csv` in
 * src/data/fetch_data.py; the same block closes process_data and
 * merge_data).
 *
 * If the file does not exist, the incoming rows become its content as they
 * are.  Otherwise incoming rows whose calendar day already occurs in the
 * file are dropped; if none remain the file is left alone, else the
 * remaining rows are appended and repeated timestamps are removed, keeping
 * the last row of each.
 */
module CsvStore {
  import opened Frames
  import opened Wrappers

  /** The incoming rows whose calendar day does not occur among `existing`,
      in their incoming order. */
  function RowsOnNewDays(existing: seq<Row>, incoming: seq<Row>): (r: seq<Row>)
    ensures forall x :: x in r <==> x in incoming && Day(x.date) !in DaysOf(existing)
    ensures |r| <= |incoming|
  {
    if incoming == [] then []
    else
      var rest := RowsOnNewDays(existing, incoming[1..]);
      assert incoming == [incoming[0]] + incoming[1..];
      if Day(incoming[0].date) in DaysOf(existing) then rest
      else [incoming[0]] + rest
  }

  /** The filter keeps every incoming row on a new day, as often as it
      arrives and in arrival order: it distributes over concatenation, and a
      single row is kept exactly when its day is new. */
  lemma {:induction false} RowsOnNewDaysAppend(existing: seq<Row>, a: seq<Row>, b: seq<Row>)
    ensures RowsOnNewDays(existing, a + b) == RowsOnNewDays(existing, a) + RowsOnNewDays(existing, b)
    ensures |a| == 1 ==> RowsOnNewDays(existing, a) == (if Day(a[0].date) in DaysOf(existing) then [] else a)
  {
    if a != [] {
      assert (a + b)[1..] == a[1..] + b;
      RowsOnNewDaysAppend(existing, a[1..], b);
    } else {
      assert a + b == b;
    }
  }

  /** The content of an existing file after the day-filtered append.  No
      stored timestamp disappears, and a file whose timestamps are unique
      keeps them unique. */
  function AppendNewDays(existing: seq<Row>, incoming: seq<Row>): (after: seq<Row>)
    ensures DatesOf(existing) <= DatesOf(after)
    ensures UniqueDates(existing) ==> UniqueDates(after)
  {
    var newRows := RowsOnNewDays(existing, incoming);
    if newRows == [] then existing
    else
      DatesOfAppend(existing, newRows);
      KeepLast(existing + newRows)
  }

  /** The content of a file (None when it does not exist) after
      `update_or_append_csv`: it holds only rows that were stored or
      incoming, and covers exactly the stored and the incoming days. */
  function Stored(file: Option<seq<Row>>, incoming: seq<Row>): (content: seq<Row>)
    ensures forall x :: x in content ==> x in incoming || (file.Some? && x in file.value)
    ensures DaysOf(content) == (if file.Some? then DaysOf(file.value) else {}) + DaysOf(incoming)
  {
    match file
    case None => incoming
    case Some(existing) =>
      AppendedRowsAreOnNewDays(existing, incoming);
      AppendCoversDays(existing, incoming);
      AppendNewDays(existing, incoming)
  }

  /** What the stage reports: a first save, nothing new, or how many rows
      were appended. */
  datatype SaveOutcome = FirstSave | NothingNew | Appended(count: nat)

  /** A CSV file on disk: whether it exists, and its rows. */
  class CsvFile {
    var present: bool
    var rows: seq<Row>

    function Content(): Option<seq<Row>>
      reads this
    {
      if present then Some(rows) else None
    }

    constructor (present: bool, rows: seq<Row>)
      ensures this.present == present && this.rows == rows
    {
      this.present := present;
      this.rows := rows;
    }

    /** update_or_append_csv(df_new, filepath). */
    method UpdateOrAppend(incoming: seq<Row>) returns (outcome: SaveOutcome)
      modifies this
      ensures present && rows == Stored(old(Content()), incoming)
      ensures !old(present) ==> outcome == FirstSave
      ensures outcome == NothingNew ==> rows == old(rows)
      ensures old(present) ==>
                var newRows := RowsOnNewDays(old(rows), incoming);
                outcome == (if newRows == [] then NothingNew else Appended(|newRows|))
    {
      if present {
        var newRows := RowsOnNewDays(rows, incoming);
        if newRows == [] {
          outcome := NothingNew;
        } else {
          rows := KeepLast(rows + newRows);
          outcome := Appended(|newRows|);
        }
      } else {
        rows := incoming;
        present := true;
        outcome := FirstSave;
      }
    }
  }

  // ---------------------------------------------------------------------
  // Properties of the day-filtered append
  // ---------------------------------------------------------------------

  lemma SameDatesSameDays(a: seq<Row>, b: seq<Row>)
    requires DatesOf(a) == DatesOf(b)
    ensures DaysOf(a) == DaysOf(b)
  {
    forall d | d in DaysOf(a) ensures d in DaysOf(b) {
      var x :| x in a && Day(x.date) == d;
      assert x.date in DatesOf(b);
    }
    forall d | d in DaysOf(b) ensures d in DaysOf(a) {
      var x :| x in b && Day(x.date) == d;
      assert x.date in DatesOf(a);
    }
  }

  /** Every row of KeepLast(rows) is a row of `rows`. */
  lemma KeptRowsComeFromInput(rows: seq<Row>)
    ensures forall x :: x in KeepLast(rows) ==> x in rows
  {
    KeepLastKeepsLastRow(rows);
  }

  /** Every row of the appended file was either already stored, or is an
      incoming row on a calendar day the file did not have. */
  lemma AppendedRowsAreOnNewDays(existing: seq<Row>, incoming: seq<Row>)
    ensures forall x :: x in AppendNewDays(existing, incoming) ==>
              x in existing || (x in incoming && Day(x.date) !in DaysOf(existing))
  {
    var newRows := RowsOnNewDays(existing, incoming);
    if newRows != [] {
      KeptRowsComeFromInput(existing + newRows);
    }
  }

  /** Appending never loses a calendar day: the file afterwards covers the
      days it had and the days of every incoming row. */
  lemma AppendCoversDays(existing: seq<Row>, incoming: seq<Row>)
    ensures DaysOf(AppendNewDays(existing, incoming)) == DaysOf(existing) + DaysOf(incoming)
  {
    var newRows := RowsOnNewDays(existing, incoming);
    var after := AppendNewDays(existing, incoming);
    if newRows != [] {
      SameDatesSameDays(after, existing + newRows);
      DatesOfAppend(existing, newRows);
    }
    forall d | d in DaysOf(incoming) ensures d in DaysOf(after) {
      var x :| x in incoming && Day(x.date) == d;
      if d !in DaysOf(existing) {
        assert x in newRows;
      }
    }
    forall d | d in DaysOf(after) ensures d in DaysOf(existing) + DaysOf(incoming) {
      var x :| x in after && Day(x.date) == d;
      AppendedRowsAreOnNewDays(existing, incoming);
    }
  }

  /** Rows already in a file with unique timestamps are never replaced:
      the incoming rows are on other days, so their timestamps differ. */
  lemma {:induction false} AppendKeepsExistingRows(existing: seq<Row>, incoming: seq<Row>)
    requires UniqueDates(existing)
    ensures forall x :: x in existing ==> x in AppendNewDays(existing, incoming)
  {
    var newRows := RowsOnNewDays(existing, incoming);
    if newRows != [] {
      var all := existing + newRows;
      var after := KeepLast(all);
      KeepLastKeepsLastRow(all);
      forall x | x in existing ensures x in after {
        var k :| 0 <= k < |existing| && existing[k] == x;
        assert all[k] == x;
        assert x.date in DatesOf(after);
        var m := LastIndex(all, x.date);
        LastIndexIsLast(all, x.date);
        forall j | k < j < |all| ensures all[j].date != x.date {
          if j < |existing| {
            assert all[j] == existing[j];
          } else {
            assert all[j] == newRows[j - |existing|] && all[j] in newRows;
            assert Day(x.date) in DaysOf(existing);
          }
        }
        assert m == k;
        assert x in after by {
          var y :| y in after && y.date == x.date;
          var i :| 0 <= i < |after| && after[i] == y;
          assert y == all[m];
        }
      }
    }
  }

  /** When every incoming day is already stored, nothing survives the filter. */
  lemma {:induction false} NothingOnKnownDays(existing: seq<Row>, incoming: seq<Row>)
    requires DaysOf(incoming) <= DaysOf(existing)
    ensures RowsOnNewDays(existing, incoming) == []
  {
    if incoming != [] {
      DatesOfCons(incoming);
      NothingOnKnownDays(existing, incoming[1..]);
    }
  }

  /** Idempotence: running the stage twice with the same incoming rows leaves
      the same file as running it once. */
  lemma UpdateOrAppendIdempotent(file: Option<seq<Row>>, incoming: seq<Row>)
    ensures Stored(Some(Stored(file, incoming)), incoming) == Stored(file, incoming)
  {
    var once := Stored(file, incoming);
    match file {
      case None =>
      case Some(existing) =>
        AppendCoversDays(existing, incoming);
    }
    assert DaysOf(incoming) <= DaysOf(once);
    NothingOnKnownDays(once, incoming);
  }
}
