/**
 * Clinical-rate aggregation: per risk class, the hospitalisation rate and
 * the baseline mortality rate from the clinical aggregate table.
 *
 * Both rates are ratios of masked column sums, and the mask is the same
 * sub-band containment test that the population aggregation uses. A class
 * whose rows sum to zero cases gets numpy's NaN or inf, modelled as
 * `NonFinite`.
 */
module ClinicalRates {
  import opened Numerics
  import opened Population

  /** One row of the clinical aggregate table. */
  datatype ClinicalRow = ClinicalRow(minAge: int, maxAge: int, cases: real, hospitalizations: real, deaths: real)

  /** The three count columns of the clinical table. */
  datatype Column = Cases | Hospitalizations | Deaths

  function Cell(r: ClinicalRow, col: Column): real
  {
    match col
    case Cases => r.cases
    case Hospitalizations => r.hospitalizations
    case Deaths => r.deaths
  }

  /** The column with the rows whose band does not lie within `c` zeroed. */
  function MaskedColumn(rows: seq<ClinicalRow>, c: RiskClass, col: Column): (vs: seq<real>)
    ensures |vs| == |rows|
  {
    seq(|rows|, i requires 0 <= i < |rows| => if WithinClass(rows[i].minAge, rows[i].maxAge, c) then Cell(rows[i], col) else 0.0)
  }

  /** The masked column sum, accumulated row by row: `col` summed over rows whose band lies within `c`. */
  function ColumnTotal(rows: seq<ClinicalRow>, c: RiskClass, col: Column): real
  {
    if rows == [] then 0.0
    else
      var r := rows[|rows| - 1];
      ColumnTotal(rows[..|rows| - 1], c, col) + (if WithinClass(r.minAge, r.maxAge, c) then Cell(r, col) else 0.0)
  }

  /** The accumulated total is the sum of the masked column. */
  lemma {:induction false} ColumnTotalIsMaskedSum(rows: seq<ClinicalRow>, c: RiskClass, col: Column)
    ensures ColumnTotal(rows, c, col) == Sum(MaskedColumn(rows, c, col))
    decreases |rows|
  {
    if rows != [] {
      var n := |rows| - 1;
      assert MaskedColumn(rows, c, col)[..n] == MaskedColumn(rows[..n], c, col);
      ColumnTotalIsMaskedSum(rows[..n], c, col);
    }
  }

  /** The masked sum is additive over concatenated tables. */
  lemma {:induction false} ColumnTotalConcat(a: seq<ClinicalRow>, b: seq<ClinicalRow>, c: RiskClass, col: Column)
    ensures ColumnTotal(a + b, c, col) == ColumnTotal(a, c, col) + ColumnTotal(b, c, col)
    decreases |b|
  {
    if b == [] {
      assert a + b == a;
    } else {
      var n := |b| - 1;
      assert (a + b)[..|a + b| - 1] == a + b[..n];
      ColumnTotalConcat(a, b[..n], c, col);
    }
  }

  /** Hospitalisations per case in the class. */
  function HospitalizationRate(rows: seq<ClinicalRow>, c: RiskClass): (rate: Float)
    ensures rate.Finite? <==> ColumnTotal(rows, c, Cases) != 0.0
    ensures rate.Finite? ==> rate.value * ColumnTotal(rows, c, Cases) == ColumnTotal(rows, c, Hospitalizations)
  {
    Divide(ColumnTotal(rows, c, Hospitalizations), ColumnTotal(rows, c, Cases))
  }

  /** Deaths per case in the class. */
  function BaselineMortalityRate(rows: seq<ClinicalRow>, c: RiskClass): (rate: Float)
    ensures rate.Finite? <==> ColumnTotal(rows, c, Cases) != 0.0
    ensures rate.Finite? ==> rate.value * ColumnTotal(rows, c, Cases) == ColumnTotal(rows, c, Deaths)
  {
    Divide(ColumnTotal(rows, c, Deaths), ColumnTotal(rows, c, Cases))
  }

  /** Fills a zero-initialised array with one hospitalisation rate per risk class. */
  method HospitalizationRateByRiskClass(rows: seq<ClinicalRow>, classes: seq<RiskClass>) returns (rate: array<Float>)
    ensures fresh(rate) && rate.Length == |classes|
    ensures forall k :: 0 <= k < |classes| ==>
              (rate[k].Finite? <==> ColumnTotal(rows, classes[k], Cases) != 0.0)
    ensures forall k :: 0 <= k < |classes| && rate[k].Finite? ==>
              rate[k].value * ColumnTotal(rows, classes[k], Cases) == ColumnTotal(rows, classes[k], Hospitalizations)
  {
    rate := new Float[|classes|](_ => Finite(0.0));
    for k := 0 to |classes|
      invariant forall k' :: 0 <= k' < k ==> rate[k'] == HospitalizationRate(rows, classes[k'])
    {
      var cases, hospitalizations := ColumnTotal(rows, classes[k], Cases), ColumnTotal(rows, classes[k], Hospitalizations);
      rate[k] := Divide(hospitalizations, cases);
    }
  }

  /** Fills a zero-initialised array with one baseline mortality rate per risk class. */
  method BaselineMortalityRateEstimates(rows: seq<ClinicalRow>, classes: seq<RiskClass>) returns (rate: array<Float>)
    ensures fresh(rate) && rate.Length == |classes|
    ensures forall k :: 0 <= k < |classes| ==>
              (rate[k].Finite? <==> ColumnTotal(rows, classes[k], Cases) != 0.0)
    ensures forall k :: 0 <= k < |classes| && rate[k].Finite? ==>
              rate[k].value * ColumnTotal(rows, classes[k], Cases) == ColumnTotal(rows, classes[k], Deaths)
  {
    rate := new Float[|classes|](_ => Finite(0.0));
    for k := 0 to |classes|
      invariant forall k' :: 0 <= k' < k ==> rate[k'] == BaselineMortalityRate(rows, classes[k'])
    {
      var cases, deaths := ColumnTotal(rows, classes[k], Cases), ColumnTotal(rows, classes[k], Deaths);
      rate[k] := Divide(deaths, cases);
    }
  }

  /** A column bounded row by row by another (and non-negative) stays so after the masked sum. */
  lemma {:induction false} ColumnTotalBounded(rows: seq<ClinicalRow>, c: RiskClass, small: Column, large: Column)
    requires forall i :: 0 <= i < |rows| ==> 0.0 <= Cell(rows[i], small) <= Cell(rows[i], large)
    ensures 0.0 <= ColumnTotal(rows, c, small) <= ColumnTotal(rows, c, large)
    decreases |rows|
  {
    if rows != [] {
      ColumnTotalBounded(rows[..|rows| - 1], c, small, large);
    }
  }

  /** Both rates of a class are finite exactly when the class has a non-zero case total. */
  lemma RatesDefinedTogether(rows: seq<ClinicalRow>, c: RiskClass)
    ensures HospitalizationRate(rows, c).Finite? <==> ColumnTotal(rows, c, Cases) != 0.0
    ensures BaselineMortalityRate(rows, c).Finite? <==> ColumnTotal(rows, c, Cases) != 0.0
  {
  }

  /**
   * When every row has 0 <= hospitalisations <= cases and 0 <= deaths <= cases,
   * and the class has a positive case total, both rates are probabilities.
   */
  lemma RatesAreProbabilities(rows: seq<ClinicalRow>, c: RiskClass)
    requires forall i :: 0 <= i < |rows| ==> 0.0 <= rows[i].hospitalizations <= rows[i].cases
    requires forall i :: 0 <= i < |rows| ==> 0.0 <= rows[i].deaths <= rows[i].cases
    requires ColumnTotal(rows, c, Cases) > 0.0
    ensures HospitalizationRate(rows, c).Finite? && 0.0 <= HospitalizationRate(rows, c).value <= 1.0
    ensures BaselineMortalityRate(rows, c).Finite? && 0.0 <= BaselineMortalityRate(rows, c).value <= 1.0
  {
    var cases := ColumnTotal(rows, c, Cases);
    ColumnTotalBounded(rows, c, Hospitalizations, Cases);
    ColumnTotalBounded(rows, c, Deaths, Cases);
    var h, d := ColumnTotal(rows, c, Hospitalizations), ColumnTotal(rows, c, Deaths);
    RatioIsProbability(h, cases);
    RatioIsProbability(d, cases);
  }

  /**
   * A row whose band is not contained in the class, wherever it sits in
   * the table, changes no column total of that class, hence neither rate.
   */
  lemma {:induction false} StraddlingRowIgnoredByRates(a: seq<ClinicalRow>, r: ClinicalRow, b: seq<ClinicalRow>, c: RiskClass, col: Column)
    requires !WithinClass(r.minAge, r.maxAge, c)
    ensures ColumnTotal(a + [r] + b, c, col) == ColumnTotal(a + b, c, col)
  {
    ColumnTotalConcat(a + [r], b, c, col);
    ColumnTotalConcat(a, b, c, col);
    assert (a + [r])[..|a|] == a;
  }

  /** Two classes, ages 0-49 and 50-120, with cases 1000/500, hospitalisations 50/150 and deaths 5/50. */
  lemma TwoClassExample()
    ensures var rows := [ClinicalRow(0, 49, 1000.0, 50.0, 5.0), ClinicalRow(50, 120, 500.0, 150.0, 50.0)];
            var young := RiskClass(0, 49); var senior := RiskClass(50, 120);
            HospitalizationRate(rows, young) == Finite(0.05) && HospitalizationRate(rows, senior) == Finite(0.30)
            && BaselineMortalityRate(rows, young) == Finite(0.005) && BaselineMortalityRate(rows, senior) == Finite(0.10)
  {
    var rows := [ClinicalRow(0, 49, 1000.0, 50.0, 5.0), ClinicalRow(50, 120, 500.0, 150.0, 50.0)];
    var young, senior := RiskClass(0, 49), RiskClass(50, 120);
    assert rows[..1] == [rows[0]];
    assert [rows[0]][..0] == [];
    forall col | col in [Cases, Hospitalizations, Deaths]
      ensures ColumnTotal(rows, young, col) == Cell(rows[0], col)
      ensures ColumnTotal(rows, senior, col) == Cell(rows[1], col)
    {
      assert ColumnTotal([rows[0]], young, col) == Cell(rows[0], col);
      assert ColumnTotal([rows[0]], senior, col) == 0.0;
    }
  }
}
