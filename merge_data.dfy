/**
 * Joining the air-quality and weather readings (src/data/merge_data.py).
 *
 * Both inputs must exist; their rows are joined on equal timestamps, the
 * result is sorted by timestamp and appended, new calendar days only, to
 * the merged raw file.  An input file that does not exist is read as None.
 */
module MergeData {
  import opened Frames
  import opened Wrappers
  import opened CsvStore

  /** A joined row: the timestamp and the cells of both sides. */
  function Combine(l: Row, r: Row): Row
  {
    Row(l.date, l.cells + r.cells)
  }

  /** The joined rows of one left row, in right order. */
  function Matches(l: Row, right: seq<Row>): (out: seq<Row>)
    ensures forall x :: x in out <==> exists r :: r in right && r.date == l.date && x == Combine(l, r)
  {
    if right == [] then []
    else
      var rest := Matches(l, right[1..]);
      assert right == [right[0]] + right[1..];
      if right[0].date == l.date then [Combine(l, right[0])] + rest else rest
  }

  /** pd.merge(left, right, on="date", how="inner"): every pair of rows
      with equal timestamps, in left order.  A row is in the join exactly
      when it combines a left and a right row with the same timestamp. */
  function InnerJoin(left: seq<Row>, right: seq<Row>): (joined: seq<Row>)
    ensures forall x :: x in joined <==>
              exists l, r :: l in left && r in right && l.date == r.date && x == Combine(l, r)
  {
    if left == [] then []
    else
      assert left == [left[0]] + left[1..];
      Matches(left[0], right) + InnerJoin(left[1..], right)
  }

  /** The join carries exactly the timestamps both sides share. */
  lemma InnerJoinDates(left: seq<Row>, right: seq<Row>)
    ensures DatesOf(InnerJoin(left, right)) == DatesOf(left) * DatesOf(right)
  {
    forall t | t in DatesOf(left) * DatesOf(right) ensures t in DatesOf(InnerJoin(left, right)) {
      var l :| l in left && l.date == t;
      var r :| r in right && r.date == t;
      assert Combine(l, r) in InnerJoin(left, right);
    }
  }

  /** With one row per timestamp on each side, the join has one row per
      shared timestamp. */
  lemma {:induction false} InnerJoinUnique(left: seq<Row>, right: seq<Row>)
    requires UniqueDates(left) && UniqueDates(right)
    ensures UniqueDates(InnerJoin(left, right))
  {
    if left != [] {
      var tail := left[1..];
      UniqueTail(left);
      InnerJoinUnique(tail, right);
      var m := Matches(left[0], right);
      var rest := InnerJoin(tail, right);
      MatchesAtMostOne(left[0], right);
      InnerJoinDates(tail, right);
      var all: seq<Row> := m + rest;
      forall i, j | 0 <= i < j < |all| ensures all[i].date != all[j].date {
        if j >= |m| {
          assert all[j] == rest[j - |m|] && rest[j - |m|] in rest;
          assert all[j].date in DatesOf(rest);
          if i < |m| {
            assert all[i] == m[i] && m[i] in m;
            assert all[i].date == left[0].date;
          } else {
            assert all[i] == rest[i - |m|];
          }
        }
      }
    }
  }

  /** With one row per timestamp on each side, the join has as many rows as
      there are shared timestamps. */
  lemma InnerJoinCount(left: seq<Row>, right: seq<Row>)
    requires UniqueDates(left) && UniqueDates(right)
    ensures |InnerJoin(left, right)| == |DatesOf(left) * DatesOf(right)|
  {
    InnerJoinUnique(left, right);
    InnerJoinDates(left, right);
    UniqueDatesCount(InnerJoin(left, right));
  }

  /** Against a side with unique timestamps a row matches at most once. */
  lemma {:induction false} MatchesAtMostOne(l: Row, right: seq<Row>)
    requires UniqueDates(right)
    ensures |Matches(l, right)| <= 1
  {
    if right != [] {
      var tail := right[1..];
      UniqueTail(right);
      MatchesAtMostOne(l, tail);
      if right[0].date == l.date {
        NoMatches(l, tail);
      }
    }
  }

  /** A row whose timestamp the other side lacks matches nothing. */
  lemma {:induction false} NoMatches(l: Row, right: seq<Row>)
    requires forall r :: r in right ==> r.date != l.date
    ensures Matches(l, right) == []
  {
    if right != [] {
      NoMatches(l, right[1..]);
    }
  }

  /** The frame the stage hands to the append step: the join, sorted. */
  function Merged(aqi: seq<Row>, weather: seq<Row>): seq<Row>
  {
    SortByDate(InnerJoin(aqi, weather))
  }

  /** The merged frame is sorted, holds exactly the joined rows and covers
      exactly the timestamps both inputs share. */
  lemma MergedRows(aqi: seq<Row>, weather: seq<Row>)
    ensures SortedByDate(Merged(aqi, weather))
    ensures forall x :: x in Merged(aqi, weather) <==>
              exists l, r :: l in aqi && r in weather && l.date == r.date && x == Combine(l, r)
    ensures DatesOf(Merged(aqi, weather)) == DatesOf(aqi) * DatesOf(weather)
  {
    var joined := InnerJoin(aqi, weather);
    InnerJoinDates(aqi, weather);
    PermutationKeepsDates(Merged(aqi, weather), joined);
    forall x ensures x in Merged(aqi, weather) <==> x in joined {
      assert x in Merged(aqi, weather) <==> x in multiset(Merged(aqi, weather));
      assert x in joined <==> x in multiset(joined);
    }
  }

  /** Which of the stage's exits was taken. */
  datatype MergeOutcome = MissingAqi | MissingWeather | Saved(save: SaveOutcome)

  /** merge_data(aqi_file, weather_file, output_file). */
  method Merge(aqi: Option<seq<Row>>, weather: Option<seq<Row>>, output: CsvFile)
    returns (outcome: MergeOutcome)
    modifies output
    ensures aqi.None? ==> outcome == MissingAqi
    ensures aqi.Some? && weather.None? ==> outcome == MissingWeather
    ensures outcome.Saved? <==> aqi.Some? && weather.Some?
    ensures !outcome.Saved? ==> output.present == old(output.present) && output.rows == old(output.rows)
    ensures outcome.Saved? ==>
              output.present && output.rows == Stored(old(output.Content()), Merged(aqi.value, weather.value))
  {
    if aqi.None? {
      return MissingAqi;
    }
    if weather.None? {
      return MissingWeather;
    }
    var merged := SortByDate(InnerJoin(aqi.value, weather.value));
    var save := output.UpdateOrAppend(merged);
    return Saved(save);
  }
}
