/**
 * The tabular data every pipeline stage works on, and the two frame
 * operations the stages share: dropping rows with a repeated timestamp
 * (keeping the last one) and sorting by timestamp.
 *
 * A frame is a sequence of rows.  Every row carries its `date` timestamp
 * and a map from column name to cell; a cell is a number, a piece of text
 * or a null (pandas' NaN).
 */
module Frames {

  /** A timestamp, in seconds since the epoch. */
  type Timestamp = int

  const SecondsPerDay: int := 86400

  /** The calendar day of a timestamp (`.dt.date`), as a day number.
      Dafny's `/` rounds toward negative infinity here, as a calendar does. */
  function Day(t: Timestamp): int
  {
    t / SecondsPerDay
  }

  datatype Cell = Null | Num(value: real) | Text(text: string)

  datatype Row = Row(date: Timestamp, cells: map<string, Cell>)

  /** The cell of a row in a column; a column the row lacks reads as null. */
  function CellAt(r: Row, column: string): Cell
  {
    if column in r.cells then r.cells[column] else Null
  }

  /** The numbers in a column, nulls dropped, in row order (`dropna()`). */
  function ColumnValues(rows: seq<Row>, column: string): (vs: seq<real>)
    ensures |vs| <= |rows|
    ensures forall v :: v in vs <==> exists i :: 0 <= i < |rows| && CellAt(rows[i], column) == Num(v)
  {
    if rows == [] then []
    else
      var rest := ColumnValues(rows[1..], column);
      assert forall i :: 1 <= i < |rows| ==> rows[i] == rows[1..][i - 1];
      match CellAt(rows[0], column)
      case Num(v) => [v] + rest
      case _ => rest
  }

  /** dropna() keeps every number of the column, as often as it occurs and
      in row order: it distributes over concatenation, and a single row
      contributes its number or nothing. */
  lemma {:induction false} ColumnValuesAppend(a: seq<Row>, b: seq<Row>, column: string)
    ensures ColumnValues(a + b, column) == ColumnValues(a, column) + ColumnValues(b, column)
    ensures |a| == 1 ==> ColumnValues(a, column) == (if CellAt(a[0], column).Num? then [CellAt(a[0], column).value] else [])
  {
    if a != [] {
      assert (a + b)[1..] == a[1..] + b;
      ColumnValuesAppend(a[1..], b, column);
    } else {
      assert a + b == b;
    }
  }

  /** Two frames that agree on a column, row by row, have the same numbers
      in it. */
  lemma {:induction false} SameColumnSameValues(a: seq<Row>, b: seq<Row>, column: string)
    requires |a| == |b|
    requires forall i :: 0 <= i < |a| ==> CellAt(a[i], column) == CellAt(b[i], column)
    ensures ColumnValues(a, column) == ColumnValues(b, column)
  {
    if a != [] {
      SameColumnSameValues(a[1..], b[1..], column);
    }
  }

  function DatesOf(rows: seq<Row>): set<Timestamp>
  {
    set r | r in rows :: r.date
  }

  function DaysOf(rows: seq<Row>): set<int>
  {
    set r | r in rows :: Day(r.date)
  }

  predicate UniqueDates(rows: seq<Row>)
  {
    forall i, j :: 0 <= i < j < |rows| ==> rows[i].date != rows[j].date
  }

  predicate SortedByDate(rows: seq<Row>)
  {
    forall i, j :: 0 <= i < j < |rows| ==> rows[i].date <= rows[j].date
  }

  // ---------------------------------------------------------------------
  // drop_duplicates(subset=["date"], keep="last")
  // ---------------------------------------------------------------------

  /** The position of the last row stamped `t`. */
  function LastIndex(rows: seq<Row>, t: Timestamp): (k: nat)
    requires t in DatesOf(rows)
    ensures k < |rows| && rows[k].date == t
  {
    var n := |rows| - 1;
    if rows[n].date == t then n
    else
      assert t in DatesOf(rows[..n]) by {
        var r :| r in rows && r.date == t;
        var i :| 0 <= i < |rows| && rows[i] == r;
        assert i < n && rows[..n][i] == r;
      }
      LastIndex(rows[..n], t)
  }

  /** No row after position LastIndex(rows, t) is stamped `t`. */
  lemma {:induction false} LastIndexIsLast(rows: seq<Row>, t: Timestamp)
    requires t in DatesOf(rows)
    ensures forall j :: LastIndex(rows, t) < j < |rows| ==> rows[j].date != t
  {
    var n := |rows| - 1;
    if rows[n].date != t {
      assert t in DatesOf(rows[..n]) by {
        var r :| r in rows && r.date == t;
        var i :| 0 <= i < |rows| && rows[i] == r;
        assert i < n && rows[..n][i] == r;
      }
      LastIndexIsLast(rows[..n], t);
      forall j | LastIndex(rows, t) < j < n ensures rows[j].date != t {
        assert rows[..n][j] == rows[j];
      }
    }
  }

  /** drop_duplicates(keep="last"): keeps, for every timestamp, only the last
      row carrying it, in input order.  The result carries each timestamp of
      the input exactly once. */
  function KeepLast(rows: seq<Row>): (r: seq<Row>)
    ensures DatesOf(r) == DatesOf(rows)
    ensures UniqueDates(r)
  {
    if rows == [] then []
    else
      var rest := KeepLast(rows[1..]);
      DatesOfCons(rows);
      if rows[0].date in DatesOf(rows[1..]) then rest
      else
        assert forall j :: 0 <= j < |rest| ==> rest[j].date in DatesOf(rest);
        DatesOfCons([rows[0]] + rest);
        assert ([rows[0]] + rest)[1..] == rest;
        [rows[0]] + rest
  }

  lemma DatesOfCons(rows: seq<Row>)
    requires rows != []
    ensures DatesOf(rows) == {rows[0].date} + DatesOf(rows[1..])
    ensures DaysOf(rows) == {Day(rows[0].date)} + DaysOf(rows[1..])
  {
    assert rows == [rows[0]] + rows[1..];
  }

  lemma DatesOfAppend(a: seq<Row>, b: seq<Row>)
    ensures DatesOf(a + b) == DatesOf(a) + DatesOf(b)
    ensures DaysOf(a + b) == DaysOf(a) + DaysOf(b)
  {
    forall r | r in a + b ensures r in a || r in b {}
  }

  /** A frame with unique timestamps has as many timestamps as rows. */
  lemma {:induction false} UniqueDatesCount(rows: seq<Row>)
    requires UniqueDates(rows)
    ensures |DatesOf(rows)| == |rows|
  {
    if rows != [] {
      UniqueTail(rows);
      UniqueDatesCount(rows[1..]);
      DatesOfCons(rows);
    }
  }

  /** The rows after the first of a frame with unique timestamps have unique
      timestamps, none of them the first row's. */
  lemma UniqueTail(rows: seq<Row>)
    requires rows != [] && UniqueDates(rows)
    ensures UniqueDates(rows[1..]) && rows[0].date !in DatesOf(rows[1..])
  {
    var tail := rows[1..];
    forall i, j | 0 <= i < j < |tail| ensures tail[i].date != tail[j].date {
      assert tail[i] == rows[i + 1] && tail[j] == rows[j + 1];
    }
    forall x | x in tail ensures x.date != rows[0].date {
      var k :| 0 <= k < |tail| && tail[k] == x;
      assert rows[k + 1] == x;
    }
  }

  /** The last occurrence of a timestamp that also occurs after the first row
      lies one position further on in the whole sequence. */
  lemma LastIndexTail(rows: seq<Row>, t: Timestamp)
    requires rows != [] && t in DatesOf(rows[1..])
    ensures t in DatesOf(rows)
    ensures LastIndex(rows, t) == 1 + LastIndex(rows[1..], t)
  {
    DatesOfCons(rows);
    var k := LastIndex(rows[1..], t);
    var m := LastIndex(rows, t);
    LastIndexIsLast(rows, t);
    LastIndexIsLast(rows[1..], t);
    assert rows[1 + k] == rows[1..][k];
    assert m >= 1 + k;
    assert rows[1..][m - 1] == rows[m];
  }

  /** Every row drop_duplicates(keep="last") keeps is the LAST input row with
      its timestamp. */
  lemma {:induction false} KeepLastKeepsLastRow(rows: seq<Row>)
    ensures forall i :: 0 <= i < |KeepLast(rows)| ==>
              KeepLast(rows)[i] == rows[LastIndex(rows, KeepLast(rows)[i].date)]
  {
    if rows != [] {
      var tail := rows[1..];
      var kt := KeepLast(tail);
      var r := KeepLast(rows);
      KeepLastKeepsLastRow(tail);
      DatesOfCons(rows);
      forall i | 0 <= i < |r| ensures r[i] == rows[LastIndex(rows, r[i].date)] {
        if rows[0].date !in DatesOf(tail) && i == 0 {
          assert r[0] == rows[0];
        } else {
          var k := if rows[0].date in DatesOf(tail) then i else i - 1;
          assert r[i] == kt[k];
          assert kt[k].date in DatesOf(kt);
          LastIndexTail(rows, r[i].date);
          assert rows[1 + LastIndex(tail, r[i].date)] == tail[LastIndex(tail, r[i].date)];
        }
      }
    }
  }

  /** On a frame whose timestamps are already unique, dropping duplicates
      changes nothing. */
  lemma {:induction false} KeepLastOfUnique(rows: seq<Row>)
    requires UniqueDates(rows)
    ensures KeepLast(rows) == rows
  {
    if rows != [] {
      UniqueTail(rows);
      KeepLastOfUnique(rows[1..]);
      assert rows == [rows[0]] + rows[1..];
    }
  }

  /** Dropping duplicates twice is the same as dropping them once. */
  lemma KeepLastIdempotent(rows: seq<Row>)
    ensures KeepLast(KeepLast(rows)) == KeepLast(rows)
  {
    KeepLastOfUnique(KeepLast(rows));
  }

  // ---------------------------------------------------------------------
  // sort_values("date")
  // ---------------------------------------------------------------------

  function InsertByDate(x: Row, s: seq<Row>): (r: seq<Row>)
    requires SortedByDate(s)
    ensures SortedByDate(r)
    ensures multiset(r) == multiset(s) + multiset{x}
  {
    if s == [] || x.date <= s[0].date then [x] + s
    else
      var rest := InsertByDate(x, s[1..]);
      assert s == [s[0]] + s[1..];
      PrependSorted(s[0], rest, x, s[1..]);
      [s[0]] + rest
  }

  /** Prepending a row no later than everything after it keeps a frame sorted. */
  lemma PrependSorted(h: Row, rest: seq<Row>, x: Row, t: seq<Row>)
    requires SortedByDate(rest) && SortedByDate([h] + t)
    requires multiset(rest) == multiset(t) + multiset{x} && h.date < x.date
    ensures SortedByDate([h] + rest)
  {
    assert ([h] + t)[0] == h;
    forall k | 0 <= k < |rest| ensures h.date <= rest[k].date {
      assert rest[k] in multiset(rest);
      if rest[k] != x {
        assert rest[k] in multiset(t);
        var m :| 0 <= m < |t| && t[m] == rest[k];
        assert ([h] + t)[m + 1] == rest[k];
      }
    }
  }

  /** A frame sorted by timestamp (stable insertion sort). */
  function SortByDate(rows: seq<Row>): (r: seq<Row>)
    ensures SortedByDate(r)
    ensures multiset(r) == multiset(rows)
  {
    if rows == [] then []
    else
      assert rows == [rows[0]] + rows[1..];
      InsertByDate(rows[0], SortByDate(rows[1..]))
  }

  /** Rows that are a permutation of each other carry the same timestamps
      and calendar days. */
  lemma PermutationKeepsDates(a: seq<Row>, b: seq<Row>)
    requires multiset(a) == multiset(b)
    ensures |a| == |b|
    ensures DatesOf(a) == DatesOf(b) && DaysOf(a) == DaysOf(b)
  {
    assert |a| == |multiset(a)| == |multiset(b)| == |b|;
    forall r ensures r in a <==> r in b {
      assert r in a <==> r in multiset(a);
      assert r in b <==> r in multiset(b);
    }
  }
}
