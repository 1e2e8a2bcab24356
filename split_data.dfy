/**
 * Splitting the dataset into a training and a test set by time
 * (src/data/split_data.py).
 *
 * The rows are sorted by timestamp and the last `test_size` rows become the
 * test set, where test_size = max(1, int(n * ratio)).  A dataset file that
 * does not exist or holds no rows produces no split.
 */
module SplitData {
  import opened Frames
  import opened Wrappers

  /** Python's int() on a float: truncation toward zero. */
  function Trunc(x: real): (t: int)
    ensures x >= 0.0 ==> 0 <= t && t as real <= x < t as real + 1.0
    ensures x < 0.0 ==> t <= 0 && x <= t as real && t as real < x + 1.0
  {
    if x >= 0.0 then x.Floor else -((-x).Floor)
  }

  /** test_size = max(1, int(len(df) * test_size_ratio)) */
  function TestSize(n: nat, ratio: real): (k: int)
    ensures k >= 1
  {
    var t := Trunc(n as real * ratio);
    if t > 1 then t else 1
  }

  /** The default ratio 0.1 keeps a tenth of the rows, rounded down, and at
      least one. */
  lemma DefaultTestSize(n: nat)
    ensures TestSize(n, 0.1) == if n / 10 > 1 then n / 10 else 1
  {
    var q := n / 10;
    var r := n % 10;
    assert n as real * 0.1 == q as real + r as real / 10.0;
    assert q as real <= n as real * 0.1 < q as real + 1.0;
    assert Trunc(n as real * 0.1) == q;
  }

  /** With a ratio between 0 and 1 the test set size is between 1 and n. */
  lemma TestSizeBounds(n: nat, ratio: real)
    requires n >= 1 && 0.0 <= ratio <= 1.0
    ensures 1 <= TestSize(n, ratio) <= n
  {
    assert n as real * ratio <= n as real * 1.0;
  }

  datatype Split = Split(train: seq<Row>, test: seq<Row>)

  /** Where df.iloc[:-k] ends and df.iloc[-k:] starts, for k >= 1, with
      Python's clamping of slice bounds. */
  function Cut(n: nat, k: int): (c: nat)
    requires k >= 1
    ensures c <= n
    ensures n - c == if k < n then k else n
  {
    if k >= n then 0 else n - k
  }

  /** split_data(input, ratio); None when the file is missing or empty. */
  function SplitData(input: Option<seq<Row>>, ratio: real): (r: Option<Split>)
    ensures r.None? <==> input.None? || input.value == []
    ensures r.Some? ==> r.value.train + r.value.test == SortByDate(input.value)
    ensures r.Some? ==> |r.value.test| == (if TestSize(|input.value|, ratio) < |input.value|
                                           then TestSize(|input.value|, ratio) else |input.value|)
  {
    match input
    case None => None
    case Some(rows) =>
      if rows == [] then None
      else
        var sorted := SortByDate(rows);
        PermutationKeepsDates(sorted, rows);
        var c := Cut(|sorted|, TestSize(|rows|, ratio));
        assert sorted[..c] + sorted[c..] == sorted;
        Some(Split(sorted[..c], sorted[c..]))
  }

  /** The split loses and invents no row, its test set is never empty, and
      with a ratio between 0 and 1 the test set has exactly test_size rows. */
  lemma SplitSizes(rows: seq<Row>, ratio: real)
    requires rows != []
    ensures var s := SplitData(Some(rows), ratio).value;
            multiset(s.train + s.test) == multiset(rows) && |s.test| >= 1 &&
            (0.0 <= ratio <= 1.0 ==> |s.test| == TestSize(|rows|, ratio) && |s.train| == |rows| - TestSize(|rows|, ratio))
  {
    var s := SplitData(Some(rows), ratio).value;
    PermutationKeepsDates(SortByDate(rows), rows);
    if 0.0 <= ratio <= 1.0 {
      TestSizeBounds(|rows|, ratio);
    }
  }

  /** The split is chronological: no training row is later than a test row. */
  lemma SplitIsChronological(rows: seq<Row>, ratio: real)
    requires rows != []
    ensures var s := SplitData(Some(rows), ratio).value;
            forall x, y :: x in s.train && y in s.test ==> x.date <= y.date
  {
    var s := SplitData(Some(rows), ratio).value;
    var sorted := SortByDate(rows);
    forall x, y | x in s.train && y in s.test ensures x.date <= y.date {
      var i :| 0 <= i < |s.train| && s.train[i] == x;
      var j :| 0 <= j < |s.test| && s.test[j] == y;
      assert sorted[i] == x && sorted[|s.train| + j] == y;
    }
  }
}
