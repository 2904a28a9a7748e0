/**
 * Initial conditions: each region's aggregate susceptible, exposed and
 * infectious counts at the start date are split across risk classes in
 * proportion to the region's population in each class; every other
 * compartment starts at zero.
 *
 * A region whose population row sums to zero divides by zero; numpy then
 * fills that region's row with NaN or inf, modelled as `NonFinite`.
 */
module Apportionment {
  import opened Numerics
  import opened Population
  import opened MortalityIncrements
  import opened StateOrder

  /** `count * (populationRow / populationRow.sum())`, element-wise. */
  function Apportion(count: real, populationRow: seq<real>): (shares: seq<Float>)
    ensures |shares| == |populationRow|
    ensures forall k :: 0 <= k < |shares| ==> (shares[k].Finite? <==> Sum(populationRow) != 0.0)
  {
    var total := Sum(populationRow);
    seq(|populationRow|, k requires 0 <= k < |populationRow| =>
      if total == 0.0 then NonFinite else Finite(count * (populationRow[k] / total)))
  }

  /** The finite values of a row whose entries are all finite. */
  function Values(row: seq<Float>): (vs: seq<real>)
    requires forall k :: 0 <= k < |row| ==> row[k].Finite?
    ensures |vs| == |row|
  {
    seq(|row|, k requires 0 <= k < |row| => row[k].value)
  }

  /**
   * For a region with a non-zero population total, the apportioned row is
   * finite, proportional to the population row, and adds up to the count.
   */
  lemma {:induction false} ApportionConservesCount(count: real, populationRow: seq<real>)
    requires Sum(populationRow) != 0.0
    ensures forall k :: 0 <= k < |populationRow| ==> Apportion(count, populationRow)[k].Finite?
    ensures Sum(Values(Apportion(count, populationRow))) == count
  {
    var total := Sum(populationRow);
    var ap := Apportion(count, populationRow);
    var scaled := Scaled(count / total, populationRow);
    forall k | 0 <= k < |populationRow|
      ensures ap[k] == Finite(scaled[k])
    {
      ShareArithmetic(count, populationRow[k], total);
    }
    assert Values(ap) == scaled;
    ScaledSharesSum(count, populationRow);
    assert Sum(Values(ap)) == count;
  }

  /** Each share is the count times the class's fraction of the region's population. */
  lemma ApportionProportional(count: real, populationRow: seq<real>, k: int)
    requires Sum(populationRow) != 0.0
    requires 0 <= k < |populationRow|
    ensures Apportion(count, populationRow)[k].Finite?
    ensures Apportion(count, populationRow)[k].value * Sum(populationRow) == count * populationRow[k]
  {
    var total, p := Sum(populationRow), populationRow[k];
    assert Apportion(count, populationRow)[k] == Finite(count * (p / total));
    ShareTimesTotal(count, p, total);
  }

  lemma ScaledSharesSum(count: real, row: seq<real>)
    requires Sum(row) != 0.0
    ensures Sum(Scaled(count / Sum(row), row)) == count
  {
    SumScaled(count / Sum(row), row);
    assert (count / Sum(row)) * Sum(row) == count;
  }

  lemma ShareArithmetic(count: real, p: real, total: real)
    requires total != 0.0
    ensures count * (p / total) == (count / total) * p
  {
    var a, b := p / total, count / total;
    assert a * total == p;
    assert b * total == count;
    calc {
      b * p;
      b * (a * total);
      (b * total) * a;
      count * a;
    }
  }

  lemma ShareTimesTotal(count: real, p: real, total: real)
    requires total != 0.0
    ensures count * (p / total) * total == count * p
  {
    var a := p / total;
    assert a * total == p;
    calc {
      count * a * total;
      count * (a * total);
      count * p;
    }
  }

  /** A region with a zero population total gets a row of NaN/inf. */
  lemma DegenerateRegionIsNonFinite(count: real, populationRow: seq<real>)
    requires Sum(populationRow) == 0.0
    ensures forall k :: 0 <= k < |populationRow| ==> !Apportion(count, populationRow)[k].Finite?
  {
  }

  /** Non-negative counts and populations give non-negative shares. */
  lemma ApportionNonNegative(count: real, populationRow: seq<real>)
    requires count >= 0.0
    requires forall k :: 0 <= k < |populationRow| ==> populationRow[k] >= 0.0
    requires Sum(populationRow) != 0.0
    ensures forall k :: 0 <= k < |populationRow| ==> Apportion(count, populationRow)[k].value >= 0.0
  {
    SumNonNegative(populationRow);
    var total := Sum(populationRow);
    forall k | 0 <= k < |populationRow| ensures Apportion(count, populationRow)[k].value >= 0.0 {
      RatioIsProbability(0.0, total);
      assert populationRow[k] / total >= 0.0;
    }
  }

  /** The trajectory rows at the start date, in table order. */
  function SnapshotAt(trajectory: seq<TrajectoryRow>, date: int): (snap: seq<TrajectoryRow>)
    ensures forall r :: r in snap <==> r in trajectory && r.date == date
    ensures |snap| <= |trajectory|
  {
    if trajectory == [] then []
    else
      var r := trajectory[|trajectory| - 1];
      var pre := SnapshotAt(trajectory[..|trajectory| - 1], date);
      assert forall x :: x in trajectory <==> x in trajectory[..|trajectory| - 1] || x == r by {
        assert trajectory == trajectory[..|trajectory| - 1] + [r];
      }
      if r.date == date then pre + [r] else pre
  }

  /** The filter keeps table order: filtering two consecutive parts of the table concatenates the results. */
  lemma {:induction false} SnapshotAtConcat(a: seq<TrajectoryRow>, b: seq<TrajectoryRow>, date: int)
    ensures SnapshotAt(a + b, date) == SnapshotAt(a, date) + SnapshotAt(b, date)
    decreases |b|
  {
    if b == [] {
      assert a + b == a;
    } else {
      var n := |b| - 1;
      assert (a + b)[..|a + b| - 1] == a + b[..n];
      SnapshotAtConcat(a, b[..n], date);
    }
  }

  /**
   * The start-date rows sorted by state: the same rows as the filter,
   * each as often, in non-decreasing order of state name.
   */
  function StartSnapshot(trajectory: seq<TrajectoryRow>, start: int): (snap: seq<TrajectoryRow>)
    ensures multiset(snap) == multiset(SnapshotAt(trajectory, start))
    ensures |snap| == |SnapshotAt(trajectory, start)|
    ensures forall r :: r in snap <==> r in trajectory && r.date == start
    ensures SortedByState(snap)
  {
    var filtered := SnapshotAt(trajectory, start);
    var sorted := SortByState(filtered);
    assert forall r :: r in sorted <==> r in multiset(filtered);
    sorted
  }

  /**
   * The returned mapping of initial compartments. The seven compartments
   * that start empty share one zero array, as in the source.
   */
  datatype InitialConditions = InitialConditions(
    susceptible: array2<Float>,
    exposed: array2<Float>,
    infectious: array2<Float>,
    hospitalizedDying: array2<Float>,
    hospitalizedRecovering: array2<Float>,
    quarantinedDying: array2<Float>,
    quarantinedRecovering: array2<Float>,
    undetectedDying: array2<Float>,
    undetectedRecovering: array2<Float>,
    recovered: array2<Float>,
    population: array2<real>)

  /** The three compartments apportioned from the trajectory snapshot. */
  datatype Compartment = Susceptible | Exposed | Infected

  function CountOf(r: TrajectoryRow, c: Compartment): real
  {
    match c
    case Susceptible => r.susceptible
    case Exposed => r.exposed
    case Infected => r.infected
  }

  /**
   * The expected initial tensor of one compartment: row j apportions the
   * j-th snapshot row's count over region j's population row; regions
   * past the end of the snapshot keep a row of zeros. The pairing is by
   * position only: nothing ties the j-th row's state to region j.
   */
  function InitialCompartment(popRows: seq<PopRow>, classes: seq<RiskClass>, snap: seq<TrajectoryRow>, c: Compartment)
    : (m: seq<seq<Float>>)
    requires |snap| <= |Regions(popRows)|
    ensures |m| == |Regions(popRows)|
    ensures forall j :: 0 <= j < |m| ==> |m[j]| == |classes|
  {
    var states := Regions(popRows);
    seq(|states|, j requires 0 <= j < |states| =>
      if j < |snap| then Apportion(CountOf(snap[j], c), ClassPopulations(popRows, states[j], classes))
      else seq(|classes|, _ => Finite(0.0)))
  }

  /**
   * Each region that has a snapshot row and a non-zero population gets a
   * finite row that sums to the region's aggregate count.
   */
  lemma InitialCompartmentConservesCounts(popRows: seq<PopRow>, classes: seq<RiskClass>, snap: seq<TrajectoryRow>, c: Compartment, j: int)
    requires |snap| <= |Regions(popRows)|
    requires 0 <= j < |snap|
    requires Sum(ClassPopulations(popRows, Regions(popRows)[j], classes)) != 0.0
    ensures var row := InitialCompartment(popRows, classes, snap, c)[j];
            (forall k :: 0 <= k < |row| ==> row[k].Finite?) && Sum(Values(row)) == CountOf(snap[j], c)
  {
    ApportionConservesCount(CountOf(snap[j], c), ClassPopulations(popRows, Regions(popRows)[j], classes));
  }

  /** The array holds the matrix `m` in rows before `upTo` and zeros from there on. */
  ghost predicate RowsSet(a: array2<Float>, m: seq<seq<Float>>, upTo: int)
    reads a
  {
    && a.Length0 == |m|
    && (forall j :: 0 <= j < |m| ==> |m[j]| == a.Length1)
    && (forall j, k :: 0 <= j < |m| && 0 <= k < a.Length1 ==> a[j, k] == if j < upTo then m[j][k] else Finite(0.0))
  }

  /** All cells of the array hold `v`. */
  ghost predicate Filled(a: array2<Float>, v: Float)
    reads a
  {
    forall j, k :: 0 <= j < a.Length0 && 0 <= k < a.Length1 ==> a[j, k] == v
  }

  /** `a[j, :] = values`: overwrites one row and leaves the others alone. */
  method SetRow(a: array2<Float>, j: nat, values: seq<Float>)
    requires j < a.Length0 && |values| == a.Length1
    modifies a
    ensures forall j', k :: 0 <= j' < a.Length0 && 0 <= k < a.Length1 ==>
              a[j', k] == if j' == j then values[k] else old(a[j', k])
  {
    forall k | 0 <= k < a.Length1 {
      a[j, k] := values[k];
    }
  }

  /** `a[j, :]` as a sequence. */
  function RowOf(a: array2<real>, j: int): (row: seq<real>)
    requires 0 <= j < a.Length0
    reads a
    ensures |row| == a.Length1
  {
    seq(a.Length1, k requires 0 <= k < a.Length1 reads a => a[j, k])
  }

  /** The rows of `InitialCompartment`: apportioned rows for the snapshot, zero rows after it. */
  lemma InitialCompartmentRows(popRows: seq<PopRow>, classes: seq<RiskClass>, snap: seq<TrajectoryRow>, c: Compartment, population: array2<real>)
    requires |snap| <= |Regions(popRows)|
    requires population.Length0 == |Regions(popRows)| && population.Length1 == |classes|
    requires forall j, k :: 0 <= j < population.Length0 && 0 <= k < |classes| ==>
               population[j, k] == ClassPopulation(popRows, Regions(popRows)[j], classes[k])
    ensures var m := InitialCompartment(popRows, classes, snap, c);
            forall j :: 0 <= j < |m| ==>
              m[j] == if j < |snap| then Apportion(CountOf(snap[j], c), RowOf(population, j)) else seq(|classes|, _ => Finite(0.0))
  {
    var states := Regions(popRows);
    forall j | 0 <= j < |states| ensures RowOf(population, j) == ClassPopulations(popRows, states[j], classes) {
      assert forall k :: 0 <= k < |classes| ==> RowOf(population, j)[k] == ClassPopulations(popRows, states[j], classes)[k];
    }
  }

  /**
   * The loop over the start-date rows for one compartment: row j of `a`
   * takes the j-th row's count apportioned over row j of the population
   * matrix; the rows after the snapshot keep their zeros.
   */
  method FillCompartment(population: array2<real>, snap: seq<TrajectoryRow>, c: Compartment, a: array2<Float>, ghost m: seq<seq<Float>>)
    requires |snap| <= population.Length0 == |m|
    requires RowsSet(a, m, 0)
    requires forall j :: 0 <= j < |m| ==>
               m[j] == if j < |snap| then Apportion(CountOf(snap[j], c), RowOf(population, j)) else seq(population.Length1, _ => Finite(0.0))
    modifies a
    ensures RowsSet(a, m, |m|)
  {
    for j := 0 to |snap|
      invariant RowsSet(a, m, j)
    {
      SetRow(a, j, Apportion(CountOf(snap[j], c), RowOf(population, j)));
    }
  }

  /** A zero-initialised array for one compartment, filled from the snapshot. */
  method NewInitialCompartment(popRows: seq<PopRow>, classes: seq<RiskClass>, snap: seq<TrajectoryRow>, c: Compartment, population: array2<real>)
    returns (a: array2<Float>)
    requires |snap| <= |Regions(popRows)|
    requires population.Length0 == |Regions(popRows)| && population.Length1 == |classes|
    requires forall j, k :: 0 <= j < population.Length0 && 0 <= k < |classes| ==>
               population[j, k] == ClassPopulation(popRows, Regions(popRows)[j], classes[k])
    ensures fresh(a) && a.Length0 == |Regions(popRows)| && a.Length1 == |classes|
    ensures RowsSet(a, InitialCompartment(popRows, classes, snap, c), |Regions(popRows)|)
  {
    a := new Float[population.Length0, population.Length1]((_, _) => Finite(0.0));
    InitialCompartmentRows(popRows, classes, snap, c, population);
    FillCompartment(population, snap, c, a, InitialCompartment(popRows, classes, snap, c));
  }

  /** The three compartments seeded from the snapshot, each in a fresh array. */
  method SeededCompartments(popRows: seq<PopRow>, classes: seq<RiskClass>, snap: seq<TrajectoryRow>, population: array2<real>)
    returns (susceptible: array2<Float>, exposed: array2<Float>, infectious: array2<Float>)
    requires |snap| <= |Regions(popRows)|
    requires population.Length0 == |Regions(popRows)| && population.Length1 == |classes|
    requires forall j, k :: 0 <= j < population.Length0 && 0 <= k < |classes| ==>
               population[j, k] == ClassPopulation(popRows, Regions(popRows)[j], classes[k])
    ensures fresh(susceptible) && fresh(exposed) && fresh(infectious)
    ensures susceptible != exposed && susceptible != infectious && exposed != infectious
    ensures susceptible.Length1 == exposed.Length1 == infectious.Length1 == |classes|
    ensures RowsSet(susceptible, InitialCompartment(popRows, classes, snap, Susceptible), |Regions(popRows)|)
    ensures RowsSet(exposed, InitialCompartment(popRows, classes, snap, Exposed), |Regions(popRows)|)
    ensures RowsSet(infectious, InitialCompartment(popRows, classes, snap, Infected), |Regions(popRows)|)
  {
    susceptible := NewInitialCompartment(popRows, classes, snap, Susceptible, population);
    exposed := NewInitialCompartment(popRows, classes, snap, Exposed, population);
    infectious := NewInitialCompartment(popRows, classes, snap, Infected, population);
  }

  /**
   * Builds the initial conditions: the population matrix, three arrays of
   * zeros whose row j is overwritten by the apportioned counts of the j-th
   * start-date row in order of state name, and one zero array shared by
   * the remaining seven compartments.
   */
  method GetInitialConditions(popRows: seq<PopRow>, classes: seq<RiskClass>, trajectory: seq<TrajectoryRow>, start: int)
    returns (states: seq<string>, ic: InitialConditions)
    requires |SnapshotAt(trajectory, start)| <= |Regions(popRows)|
    ensures states == Regions(popRows)
    ensures ic.population.Length0 == |states| && ic.population.Length1 == |classes|
    ensures forall j, k :: 0 <= j < |states| && 0 <= k < |classes| ==>
              ic.population[j, k] == ClassPopulation(popRows, states[j], classes[k])
    ensures var snap := StartSnapshot(trajectory, start);
            && RowsSet(ic.susceptible, InitialCompartment(popRows, classes, snap, Susceptible), |states|)
            && RowsSet(ic.exposed, InitialCompartment(popRows, classes, snap, Exposed), |states|)
            && RowsSet(ic.infectious, InitialCompartment(popRows, classes, snap, Infected), |states|)
    ensures ic.hospitalizedDying == ic.hospitalizedRecovering == ic.quarantinedDying == ic.quarantinedRecovering
            == ic.undetectedDying == ic.undetectedRecovering == ic.recovered
    ensures ic.recovered.Length0 == |states| && ic.recovered.Length1 == |classes| && Filled(ic.recovered, Finite(0.0))
    ensures fresh(ic.susceptible) && fresh(ic.exposed) && fresh(ic.infectious) && fresh(ic.recovered) && fresh(ic.population)
    ensures ic.susceptible != ic.exposed && ic.susceptible != ic.infectious && ic.exposed != ic.infectious
    ensures ic.recovered != ic.susceptible && ic.recovered != ic.exposed && ic.recovered != ic.infectious
    ensures ic.susceptible.Length1 == ic.exposed.Length1 == ic.infectious.Length1 == |classes|
  {
    var population;
    states, population := PopulationByStateAndRiskClass(popRows, classes);
    var nRegions, nClasses := |states|, |classes|;
    var zeros := new Float[nRegions, nClasses]((_, _) => Finite(0.0));
    var susceptible, exposed, infectious := SeededCompartments(popRows, classes, StartSnapshot(trajectory, start), population);
    ic := InitialConditions(susceptible, exposed, infectious, zeros, zeros, zeros, zeros, zeros, zeros, zeros, population);
  }
}
