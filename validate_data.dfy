/**
 * Gatekeeping the new test data before it replaces the reference data
 * (src/data/validate_and_test_data.py).
 *
 * The current data (the test set) must pass four expectations; data drift
 * against the reference data (the training set) is reported but decides
 * nothing; then every numeric column of the reference must pass a two-sample
 * Kolmogorov-Smirnov test at the 5% level.  Only when everything passed is
 * the reference file overwritten with the current file.  Every failure ends
 * the run (exit status 1) before that copy.
 *
 * The drift report and the KS p-value are opaque parameters.
 */
module ValidateData {
  import opened Frames
  import opened Wrappers

  /** The dtype of a column, as far as the checks care. */
  datatype Kind = Numeric | DateTime | Textual

  datatype Column = Column(name: string, kind: Kind)

  /** A loaded CSV file: its header and its rows. */
  datatype Frame = Frame(columns: seq<Column>, rows: seq<Row>)

  predicate HasColumn(f: Frame, name: string)
  {
    exists c :: c in f.columns && c.name == name
  }

  // ---------------------------------------------------------------------
  // The expectation suite
  // ---------------------------------------------------------------------

  datatype Expectation =
    | ColumnExists(column: string)
    | NotNull(column: string)
    | Between(column: string, low: real, high: real)

  /** The four expectations the suite is given. */
  const Suite: seq<Expectation> :=
    [ColumnExists("date"), NotNull("pm10"), Between("pm10", 0.0, 500.0), NotNull("category")]

  /** A range check skips nulls and fails on anything but a number. */
  predicate InRange(cell: Cell, low: real, high: real)
  {
    match cell
    case Null => true
    case Num(v) => low <= v <= high
    case Text(_) => false
  }

  /** Whether an expectation holds on a frame; a missing column fails it. */
  predicate Holds(f: Frame, e: Expectation)
  {
    match e
    case ColumnExists(c) => HasColumn(f, c)
    case NotNull(c) => HasColumn(f, c) && forall i :: 0 <= i < |f.rows| ==> !CellAt(f.rows[i], c).Null?
    case Between(c, low, high) => HasColumn(f, c) && forall i :: 0 <= i < |f.rows| ==> InRange(CellAt(f.rows[i], c), low, high)
  }

  /** The failing expectations of a list, in order. */
  function Failures(f: Frame, suite: seq<Expectation>): (failed: seq<Expectation>)
    ensures forall e :: e in failed <==> e in suite && !Holds(f, e)
  {
    if suite == [] then []
    else
      var rest := Failures(f, suite[1..]);
      assert suite == [suite[0]] + suite[1..];
      if Holds(f, suite[0]) then rest else [suite[0]] + rest
  }

  /** The suite passes exactly when the data has a "date" column, every
      "pm10" value is present and between 0 and 500, and every "category"
      value is present. */
  predicate SuiteSatisfied(f: Frame)
  {
    HasColumn(f, "date") && HasColumn(f, "pm10") && HasColumn(f, "category") &&
    forall i :: 0 <= i < |f.rows| ==>
      CellAt(f.rows[i], "pm10").Num? && 0.0 <= CellAt(f.rows[i], "pm10").value <= 500.0 &&
      !CellAt(f.rows[i], "category").Null?
  }

  /** validate_data(data): the failing expectations of the suite, in suite
      order; none fail exactly when the data satisfies the four rules. */
  function Validate(f: Frame): (failed: seq<Expectation>)
    ensures forall e :: e in failed <==> e in Suite && !Holds(f, e)
    ensures failed == [] <==> SuiteSatisfied(f)
  {
    SuiteMeaning(f);
    Failures(f, Suite)
  }

  /** The four expectations, read as one condition on the data. */
  lemma SuiteMeaning(f: Frame)
    ensures Failures(f, Suite) == [] <==> SuiteSatisfied(f)
  {
    var failed := Failures(f, Suite);
    assert Suite[0] in Suite && Suite[1] in Suite && Suite[2] in Suite && Suite[3] in Suite;
    if failed == [] {
      forall i | 0 <= i < |f.rows|
        ensures CellAt(f.rows[i], "pm10").Num? && 0.0 <= CellAt(f.rows[i], "pm10").value <= 500.0
      {
        assert Suite[1] !in failed && Suite[2] !in failed;
        assert InRange(CellAt(f.rows[i], "pm10"), 0.0, 500.0);
      }
    } else {
      var e := failed[0];
      assert e in failed;
    }
  }

  // ---------------------------------------------------------------------
  // The Kolmogorov-Smirnov loop
  // ---------------------------------------------------------------------

  /** The significance level. */
  const Alpha: real := 0.05

  /** The names of the numeric columns (`select_dtypes(include=[np.number])`). */
  function NumericColumns(f: Frame): seq<string>
  {
    NumericNames(f.columns)
  }

  /** The names of the numeric columns of a header, in header order. */
  function NumericNames(columns: seq<Column>): (names: seq<string>)
    ensures forall n :: n in names <==> exists c :: c in columns && c.kind == Numeric && c.name == n
  {
    if columns == [] then []
    else
      var rest := NumericNames(columns[1..]);
      assert columns == [columns[0]] + columns[1..];
      if columns[0].kind == Numeric then [columns[0].name] + rest else rest
  }

  /** The numeric columns keep header order: the selection distributes over
      concatenation, and a single column is kept exactly when it is numeric. */
  lemma {:induction false} NumericNamesAppend(a: seq<Column>, b: seq<Column>)
    ensures NumericNames(a + b) == NumericNames(a) + NumericNames(b)
    ensures |a| == 1 ==> NumericNames(a) == (if a[0].kind == Numeric then [a[0].name] else [])
  {
    if a != [] {
      assert (a + b)[1..] == a[1..] + b;
      NumericNamesAppend(a[1..], b);
    } else {
      assert a + b == b;
    }
  }

  /** ks_2samp(reference[column].dropna(), current[column].dropna()).pvalue */
  function ColumnPValue(reference: Frame, current: Frame, column: string,
                        pValue: (seq<real>, seq<real>) -> real): real
  {
    pValue(ColumnValues(reference.rows, column), ColumnValues(current.rows, column))
  }

  /** Every numeric column of the reference passes the test. */
  predicate KsAllPass(reference: Frame, current: Frame, pValue: (seq<real>, seq<real>) -> real)
  {
    var names := NumericColumns(reference);
    forall k :: 0 <= k < |names| ==> ColumnPValue(reference, current, names[k], pValue) >= Alpha
  }

  /** `column` is the first numeric column of the reference that fails the
      test, with p-value p. */
  predicate KsFirstFailure(reference: Frame, current: Frame, pValue: (seq<real>, seq<real>) -> real,
                           column: string, p: real)
  {
    var names := NumericColumns(reference);
    exists k :: 0 <= k < |names| && names[k] == column &&
      p == ColumnPValue(reference, current, column, pValue) && p < Alpha &&
      forall j :: 0 <= j < k ==> ColumnPValue(reference, current, names[j], pValue) >= Alpha
  }

  datatype KsResult = KsPassed | KsFailed(column: string, p: real)

  /** kolmogorov_smirnov_test(reference, current): stops at the first column
      whose p-value is below 0.05; a p-value of exactly 0.05 passes. */
  method KolmogorovSmirnov(reference: Frame, current: Frame, pValue: (seq<real>, seq<real>) -> real)
    returns (r: KsResult)
    ensures r.KsPassed? <==> KsAllPass(reference, current, pValue)
    ensures r.KsFailed? ==> KsFirstFailure(reference, current, pValue, r.column, r.p)
  {
    var names := NumericColumns(reference);
    var i := 0;
    while i < |names|
      invariant 0 <= i <= |names|
      invariant forall k :: 0 <= k < i ==> ColumnPValue(reference, current, names[k], pValue) >= Alpha
    {
      var p := pValue(ColumnValues(reference.rows, names[i]), ColumnValues(current.rows, names[i]));
      if p < Alpha {
        return KsFailed(names[i], p);
      }
      i := i + 1;
    }
    return KsPassed;
  }

  /** A failure found by the test rules out a full pass, and the failing
      column is unique. */
  lemma KsVerdictsExclusive(reference: Frame, current: Frame, pValue: (seq<real>, seq<real>) -> real,
                            column: string, p: real, column': string, p': real)
    requires KsFirstFailure(reference, current, pValue, column, p)
    ensures !KsAllPass(reference, current, pValue)
    ensures KsFirstFailure(reference, current, pValue, column', p') ==> column' == column && p' == p
  {
    var names := NumericColumns(reference);
    var k :| 0 <= k < |names| && names[k] == column &&
             p == ColumnPValue(reference, current, column, pValue) && p < Alpha &&
             forall j :: 0 <= j < k ==> ColumnPValue(reference, current, names[j], pValue) >= Alpha;
    if KsFirstFailure(reference, current, pValue, column', p') {
      var k' :| 0 <= k' < |names| && names[k'] == column' &&
                p' == ColumnPValue(reference, current, column', pValue) && p' < Alpha &&
                forall j :: 0 <= j < k' ==> ColumnPValue(reference, current, names[j], pValue) >= Alpha;
      assert k == k';
    }
  }

  // ---------------------------------------------------------------------
  // main
  // ---------------------------------------------------------------------

  /** Which of the run's exits was taken. */
  datatype RunOutcome =
    | MissingData                                 // a data file does not exist
    | ValidationFailed(failed: seq<Expectation>)  // the suite failed
    | DistributionShifted(column: string, p: real) // a KS test failed
    | Passed(driftDetected: bool)                  // the reference was replaced

  /** The reference (training) and current (test) data files; None when a
      file does not exist. */
  class DataFiles {
    var reference: Option<Frame>
    var current: Option<Frame>

    constructor (reference: Option<Frame>, current: Option<Frame>)
      ensures this.reference == reference && this.current == current
    {
      this.reference := reference;
      this.current := current;
    }

    /** main(): validate, report drift, run the KS tests and, when all
        passed, copy the current file over the reference file. */
    method ValidateAndTest(datasetDrift: (Frame, Frame) -> bool, pValue: (seq<real>, seq<real>) -> real)
      returns (outcome: RunOutcome)
      modifies this
      ensures current == old(current)
      ensures reference == if outcome.Passed? then old(current) else old(reference)
      ensures outcome.MissingData? <==> old(reference).None? || old(current).None?
      ensures old(reference).Some? && old(current).Some? ==>
                var ref := old(reference).value;
                var cur := old(current).value;
                (outcome.ValidationFailed? <==> Validate(cur) != []) &&
                (outcome.ValidationFailed? ==> outcome.failed == Validate(cur)) &&
                (outcome.DistributionShifted? ==>
                   Validate(cur) == [] && KsFirstFailure(ref, cur, pValue, outcome.column, outcome.p)) &&
                (outcome.Passed? <==> Validate(cur) == [] && KsAllPass(ref, cur, pValue)) &&
                (outcome.Passed? ==> outcome.driftDetected == datasetDrift(ref, cur))
    {
      if reference.None? || current.None? {
        return MissingData;
      }
      var ref := reference.value;
      var cur := current.value;
      var failed := Validate(cur);
      if failed != [] {
        return ValidationFailed(failed);
      }
      var drift := datasetDrift(ref, cur);
      var ks := KolmogorovSmirnov(ref, cur, pValue);
      if ks.KsFailed? {
        return DistributionShifted(ks.column, ks.p);
      }
      reference := current;
      return Passed(drift);
    }
  }
}
