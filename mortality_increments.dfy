/**
 * The glue in front of the time-varying mortality-rate estimator: per
 * region, the trajectory rows from the start date onward are turned into
 * incremental case and death series (pandas `diff().dropna()`) and handed
 * to the estimator together with the region's population split, the
 * baseline mortality rates and the calibration bounds.
 *
 * The estimator itself is an external optimiser and is not modelled; its
 * output enters the parameter assembly as an opaque tensor.
 */
module MortalityIncrements {
  import opened Numerics

  /** One row of the trajectory table of a prior model run (cumulative counts). */
  datatype TrajectoryRow = TrajectoryRow(date: int, state: string, susceptible: real, exposed: real, infected: real, deceased: real)

  /** `diff().dropna()` on one column: the differences of consecutive entries. */
  function Increments(xs: seq<real>): (d: seq<real>)
    ensures |d| == if xs == [] then 0 else |xs| - 1
  {
    if xs == [] then [] else seq(|xs| - 1, i requires 0 <= i < |xs| - 1 => xs[i + 1] - xs[i])
  }

  lemma IncrementsPrefix(xs: seq<real>, m: nat)
    requires m < |xs|
    ensures Increments(xs[..m + 1]) == Increments(xs)[..m]
  {
  }

  /** The increments telescope: they add up to the growth of the cumulative series. */
  lemma {:induction false} IncrementsTelescope(xs: seq<real>)
    requires |xs| >= 1
    ensures Sum(Increments(xs)) == xs[|xs| - 1] - xs[0]
    decreases |xs|
  {
    var n := |xs|;
    if n > 1 {
      IncrementsPrefix(xs, n - 2);
      assert xs[..n - 1][..n - 2 + 1] == xs[..n - 1];
      IncrementsTelescope(xs[..n - 1]);
      assert Increments(xs)[..n - 2] == Increments(xs[..n - 1]);
    }
  }

  /** Running sums of the increments rebuild the cumulative series from its first entry. */
  lemma IncrementsReconstruct(xs: seq<real>, i: nat)
    requires i < |xs|
    ensures xs[0] + Sum(Increments(xs)[..i]) == xs[i]
  {
    IncrementsPrefix(xs, i);
    IncrementsTelescope(xs[..i + 1]);
  }

  /** The rows of one region from the start date onward, in table order. */
  function RegionRowsSince(rows: seq<TrajectoryRow>, state: string, start: int): (sel: seq<TrajectoryRow>)
    ensures forall r :: r in sel <==> r in rows && r.state == state && r.date >= start
    ensures |sel| <= |rows|
  {
    if rows == [] then []
    else
      var r := rows[|rows| - 1];
      var pre := RegionRowsSince(rows[..|rows| - 1], state, start);
      assert forall x :: x in rows <==> x in rows[..|rows| - 1] || x == r by {
        assert rows == rows[..|rows| - 1] + [r];
      }
      if r.state == state && r.date >= start then pre + [r] else pre
  }

  /**
   * The selection keeps table order: selecting from two consecutive parts
   * of the table concatenates the two selections.
   */
  lemma {:induction false} RegionRowsSinceConcat(a: seq<TrajectoryRow>, b: seq<TrajectoryRow>, state: string, start: int)
    ensures RegionRowsSince(a + b, state, start) == RegionRowsSince(a, state, start) + RegionRowsSince(b, state, start)
    decreases |b|
  {
    if b == [] {
      assert a + b == a;
    } else {
      var n := |b| - 1;
      assert (a + b)[..|a + b| - 1] == a + b[..n];
      RegionRowsSinceConcat(a, b[..n], state, start);
    }
  }

  /** A single row is selected exactly when it belongs to the region and is dated on or after the start date. */
  lemma RegionRowsSinceSingle(r: TrajectoryRow, state: string, start: int)
    ensures RegionRowsSince([r], state, start) == if r.state == state && r.date >= start then [r] else []
  {
    assert [r][..0] == [];
  }

  function ExposedColumn(rows: seq<TrajectoryRow>): (col: seq<real>)
    ensures |col| == |rows|
    ensures forall i :: 0 <= i < |rows| ==> col[i] == rows[i].exposed
  {
    seq(|rows|, i requires 0 <= i < |rows| => rows[i].exposed)
  }

  function DeceasedColumn(rows: seq<TrajectoryRow>): (col: seq<real>)
    ensures |col| == |rows|
    ensures forall i :: 0 <= i < |rows| ==> col[i] == rows[i].deceased
  {
    seq(|rows|, i requires 0 <= i < |rows| => rows[i].deceased)
  }

  /** What the estimator receives for one region. */
  datatype EstimatorInput = EstimatorInput(
    cases: seq<real>,
    deaths: seq<real>,
    baselineMortalityRate: seq<Float>,
    population: seq<real>,
    maxPctChange: real,
    maxPctPopulationDeviation: real,
    nTimestepsPerEstimate: int)

  /**
   * The estimator call for one region: incremental cases and deaths from
   * the start date on, one entry fewer than the selected rows, adding up
   * to the growth of the cumulative exposed and deceased counts; the
   * same constant is passed for both calibration bounds.
   */
  function EstimatorInputFor(
    trajectory: seq<TrajectoryRow>, state: string, start: int,
    population: seq<real>, baseline: seq<Float>, maxPctChange: real, nTimestepsPerEstimate: int
  ): (input: EstimatorInput)
    ensures var rows := RegionRowsSince(trajectory, state, start);
            && input.cases == Increments(ExposedColumn(rows))
            && input.deaths == Increments(DeceasedColumn(rows))
            && |input.cases| == |input.deaths| == (if rows == [] then 0 else |rows| - 1)
            && (rows != [] ==> Sum(input.cases) == rows[|rows| - 1].exposed - rows[0].exposed)
            && (rows != [] ==> Sum(input.deaths) == rows[|rows| - 1].deceased - rows[0].deceased)
    ensures input.maxPctChange == maxPctChange && input.maxPctPopulationDeviation == maxPctChange
    ensures input.nTimestepsPerEstimate == nTimestepsPerEstimate
    ensures input.population == population && input.baselineMortalityRate == baseline
  {
    var rows := RegionRowsSince(trajectory, state, start);
    if rows != [] then
      IncrementsTelescope(ExposedColumn(rows));
      IncrementsTelescope(DeceasedColumn(rows));
      EstimatorInput(Increments(ExposedColumn(rows)), Increments(DeceasedColumn(rows)),
                     baseline, population, maxPctChange, maxPctChange, nTimestepsPerEstimate)
    else
      EstimatorInput([], [], baseline, population, maxPctChange, maxPctChange, nTimestepsPerEstimate)
  }
}
