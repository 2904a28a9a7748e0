/**
 * The DELPHI parameter assembly: median times become half-life rates
 * (`ln 2 / median`), and the detection rate is split into six transition
 * rates out of the infectious compartment, one per branch of the
 * detected/undetected, hospitalised/quarantined, dying/recovering tree.
 *
 * `ln 2` is a parameter (`ln2`), not computed. The policy-response curve
 * and the mortality-rate estimator are inputs to the assembly.
 */
module DelphiParams {
  import opened Numerics

  /** The six branches out of the infectious compartment. */
  datatype Branch =
    | HospitalizedDying | HospitalizedRecovering
    | QuarantinedDying | QuarantinedRecovering
    | UndetectedDying | UndetectedRecovering

  /**
   * The rate of one branch for detection rate `dr`, detection probability
   * `dp`, hospitalisation rate `h` and mortality rate `m`, in the order the
   * factors are multiplied.
   */
  function BranchRate(b: Branch, dr: real, dp: real, h: real, m: real): real
  {
    match b
    case HospitalizedDying => dr * dp * h * m
    case HospitalizedRecovering => dr * dp * h * (1.0 - m)
    case QuarantinedDying => dr * dp * (1.0 - h) * m
    case QuarantinedRecovering => dr * dp * (1.0 - h) * (1.0 - m)
    case UndetectedDying => dr * (1.0 - dp) * h
    case UndetectedRecovering => dr * (1.0 - dp) * (1.0 - h)
  }

  /** `x * y + x * (1 - y) == x`: a rate split into two complementary branches. */
  lemma SplitConserves(x: real, y: real)
    ensures x * y + x * (1.0 - y) == x
  {
    assert x * (1.0 - y) == x - x * y;
  }

  /**
   * Conservation of the branch rates: each split divides its parent rate
   * without loss, so the six rates add up to the detection rate.
   */
  lemma BranchRatesConserve(dr: real, dp: real, h: real, m: real)
    ensures BranchRate(HospitalizedDying, dr, dp, h, m) + BranchRate(HospitalizedRecovering, dr, dp, h, m) == dr * dp * h
    ensures BranchRate(QuarantinedDying, dr, dp, h, m) + BranchRate(QuarantinedRecovering, dr, dp, h, m) == dr * dp * (1.0 - h)
    ensures BranchRate(HospitalizedDying, dr, dp, h, m) + BranchRate(HospitalizedRecovering, dr, dp, h, m)
            + BranchRate(QuarantinedDying, dr, dp, h, m) + BranchRate(QuarantinedRecovering, dr, dp, h, m) == dr * dp
    ensures BranchRate(UndetectedDying, dr, dp, h, m) + BranchRate(UndetectedRecovering, dr, dp, h, m) == dr * (1.0 - dp)
    ensures SumOfBranches(dr, dp, h, m) == dr
  {
    SplitConserves(dr * dp * h, m);
    SplitConserves(dr * dp * (1.0 - h), m);
    SplitConserves(dr * dp, h);
    SplitConserves(dr * (1.0 - dp), h);
    SplitConserves(dr, dp);
  }

  /** The six branch rates added up. */
  function SumOfBranches(dr: real, dp: real, h: real, m: real): real
  {
    BranchRate(HospitalizedDying, dr, dp, h, m) + BranchRate(HospitalizedRecovering, dr, dp, h, m)
    + BranchRate(QuarantinedDying, dr, dp, h, m) + BranchRate(QuarantinedRecovering, dr, dp, h, m)
    + BranchRate(UndetectedDying, dr, dp, h, m) + BranchRate(UndetectedRecovering, dr, dp, h, m)
  }

  /** Scaling a non-negative value by a factor in [0, 1] keeps it in [0, value]. */
  lemma ScaleBounded(x: real, y: real)
    requires x >= 0.0 && 0.0 <= y <= 1.0
    ensures 0.0 <= x * y <= x
  {
    assert x * y <= x * 1.0;
  }

  lemma ScaleTwiceBounded(x: real, y: real, z: real)
    requires x >= 0.0 && 0.0 <= y <= 1.0 && 0.0 <= z <= 1.0
    ensures 0.0 <= x * y * z <= x
  {
    ScaleBounded(x, y);
    ScaleBounded(x * y, z);
  }

  lemma ScaleThriceBounded(x: real, y: real, z: real, w: real)
    requires x >= 0.0 && 0.0 <= y <= 1.0 && 0.0 <= z <= 1.0 && 0.0 <= w <= 1.0
    ensures 0.0 <= x * y * z * w <= x
  {
    ScaleBounded(x, y);
    ScaleBounded(x * y, z);
    ScaleBounded(x * y * z, w);
  }

  /** With a non-negative detection rate and probabilities in [0, 1], every branch rate lies in [0, dr]. */
  lemma BranchRateBounded(b: Branch, dr: real, dp: real, h: real, m: real)
    requires dr >= 0.0
    requires 0.0 <= dp <= 1.0 && 0.0 <= h <= 1.0 && 0.0 <= m <= 1.0
    ensures 0.0 <= BranchRate(b, dr, dp, h, m) <= dr
  {
    var notDetected, notHospitalized, notDying := 1.0 - dp, 1.0 - h, 1.0 - m;
    var r := BranchRate(b, dr, dp, h, m);
    match b
    case HospitalizedDying =>
      ScaleThriceBounded(dr, dp, h, m);
    case HospitalizedRecovering =>
      assert r == dr * dp * h * notDying;
      ScaleThriceBounded(dr, dp, h, notDying);
    case QuarantinedDying =>
      assert r == dr * dp * notHospitalized * m;
      ScaleThriceBounded(dr, dp, notHospitalized, m);
    case QuarantinedRecovering =>
      assert r == dr * dp * notHospitalized * notDying;
      ScaleThriceBounded(dr, dp, notHospitalized, notDying);
    case UndetectedDying =>
      assert r == dr * notDetected * h;
      ScaleTwiceBounded(dr, notDetected, h);
    case UndetectedRecovering =>
      assert r == dr * notDetected * notHospitalized;
      ScaleTwiceBounded(dr, notDetected, notHospitalized);
  }

  /**
   * One branch's tensor: the scalar detection rate, the per-class
   * hospitalisation rate broadcast over regions and timesteps
   * (`h[None, :, None]`) and the region x class x timestep mortality rate.
   * A NaN/inf factor makes the cell NaN/inf.
   */
  function BranchTensor(b: Branch, dr: Float, dp: real, h: seq<Float>, m: seq<seq<seq<real>>>): (r: seq<seq<seq<Float>>>)
    requires forall j :: 0 <= j < |m| ==> |m[j]| == |h|
    ensures |r| == |m|
    ensures forall j :: 0 <= j < |r| ==> |r[j]| == |h|
    ensures forall j, k :: 0 <= j < |r| && 0 <= k < |h| ==> |r[j][k]| == |m[j][k]|
  {
    seq(|m|, j requires 0 <= j < |m| =>
      seq(|h|, k requires 0 <= k < |h| =>
        seq(|m[j][k]|, t requires 0 <= t < |m[j][k]| =>
          if dr.Finite? && h[k].Finite? then Finite(BranchRate(b, dr.value, dp, h[k].value, m[j][k][t])) else NonFinite)))
  }

  /**
   * An undetected branch's tensor: `dr * (1 - dp) * h[None, :, None]` has
   * no mortality factor, so numpy leaves it with shape 1 x class x 1, and
   * it broadcasts against the region x class x timestep tensors.
   */
  function UndetectedTensor(b: Branch, dr: Float, dp: real, h: seq<Float>): (r: seq<seq<seq<Float>>>)
    requires b == UndetectedDying || b == UndetectedRecovering
    ensures |r| == 1 && |r[0]| == |h|
    ensures forall k :: 0 <= k < |h| ==> |r[0][k]| == 1
  {
    [seq(|h|, k requires 0 <= k < |h| =>
      [if dr.Finite? && h[k].Finite? then Finite(BranchRate(b, dr.value, dp, h[k].value, 0.0)) else NonFinite])]
  }

  /** An undetected branch does not depend on the mortality rate. */
  lemma UndetectedIgnoresMortality(b: Branch, dr: real, dp: real, h: real, m: real)
    requires b == UndetectedDying || b == UndetectedRecovering
    ensures BranchRate(b, dr, dp, h, m) == BranchRate(b, dr, dp, h, 0.0)
  {
  }

  /**
   * The six branch tensors: the four detected ones region x class x
   * timestep, the two undetected ones 1 x class x 1.
   */
  datatype TransitionRates = TransitionRates(
    ihd: seq<seq<seq<Float>>>, ihr: seq<seq<seq<Float>>>,
    iqd: seq<seq<seq<Float>>>, iqr: seq<seq<seq<Float>>>,
    iud: seq<seq<seq<Float>>>, iur: seq<seq<seq<Float>>>)

  function TransitionRatesFor(dr: Float, dp: real, h: seq<Float>, m: seq<seq<seq<real>>>): (tr: TransitionRates)
    requires forall j :: 0 <= j < |m| ==> |m[j]| == |h|
    ensures |tr.ihd| == |tr.ihr| == |tr.iqd| == |tr.iqr| == |m|
    ensures forall j, k :: 0 <= j < |m| && 0 <= k < |h| ==>
              |tr.ihd[j]| == |tr.ihr[j]| == |tr.iqd[j]| == |tr.iqr[j]| == |h|
              && |tr.ihd[j][k]| == |tr.ihr[j][k]| == |tr.iqd[j][k]| == |tr.iqr[j][k]| == |m[j][k]|
    ensures |tr.iud| == |tr.iur| == 1 && |tr.iud[0]| == |tr.iur[0]| == |h|
    ensures forall k :: 0 <= k < |h| ==> |tr.iud[0][k]| == |tr.iur[0][k]| == 1
  {
    TransitionRates(
      BranchTensor(HospitalizedDying, dr, dp, h, m), BranchTensor(HospitalizedRecovering, dr, dp, h, m),
      BranchTensor(QuarantinedDying, dr, dp, h, m), BranchTensor(QuarantinedRecovering, dr, dp, h, m),
      UndetectedTensor(UndetectedDying, dr, dp, h), UndetectedTensor(UndetectedRecovering, dr, dp, h))
  }

  /** The value of cell (j, k, t) of a branch tensor. */
  lemma BranchTensorCell(b: Branch, dr: Float, dp: real, h: seq<Float>, m: seq<seq<seq<real>>>, j: int, k: int, t: int)
    requires forall j :: 0 <= j < |m| ==> |m[j]| == |h|
    requires 0 <= j < |m| && 0 <= k < |h| && 0 <= t < |m[j][k]|
    ensures BranchTensor(b, dr, dp, h, m)[j][k][t]
         == if dr.Finite? && h[k].Finite? then Finite(BranchRate(b, dr.value, dp, h[k].value, m[j][k][t])) else NonFinite
  {
  }

  /** The value of the single cell of class k of an undetected tensor. */
  lemma UndetectedTensorCell(b: Branch, dr: Float, dp: real, h: seq<Float>, k: int)
    requires b == UndetectedDying || b == UndetectedRecovering
    requires 0 <= k < |h|
    ensures UndetectedTensor(b, dr, dp, h)[0][k][0]
         == if dr.Finite? && h[k].Finite? then Finite(BranchRate(b, dr.value, dp, h[k].value, 0.0)) else NonFinite
  {
  }

  /**
   * Cell by cell, the six tensors are finite exactly when the detection
   * rate and the class's hospitalisation rate are; the undetected tensors
   * are read at their broadcast cell (0, k, 0).
   */
  lemma TransitionTensorsFinite(dr: Float, dp: real, h: seq<Float>, m: seq<seq<seq<real>>>, j: int, k: int, t: int)
    requires forall j :: 0 <= j < |m| ==> |m[j]| == |h|
    requires 0 <= j < |m| && 0 <= k < |h| && 0 <= t < |m[j][k]|
    ensures var tr := TransitionRatesFor(dr, dp, h, m);
            var finite := dr.Finite? && h[k].Finite?;
            && (tr.ihd[j][k][t].Finite? <==> finite) && (tr.ihr[j][k][t].Finite? <==> finite)
            && (tr.iqd[j][k][t].Finite? <==> finite) && (tr.iqr[j][k][t].Finite? <==> finite)
            && (tr.iud[0][k][0].Finite? <==> finite) && (tr.iur[0][k][0].Finite? <==> finite)
  {
    BranchTensorCell(HospitalizedDying, dr, dp, h, m, j, k, t);
    BranchTensorCell(HospitalizedRecovering, dr, dp, h, m, j, k, t);
    BranchTensorCell(QuarantinedDying, dr, dp, h, m, j, k, t);
    BranchTensorCell(QuarantinedRecovering, dr, dp, h, m, j, k, t);
    UndetectedTensorCell(UndetectedDying, dr, dp, h, k);
    UndetectedTensorCell(UndetectedRecovering, dr, dp, h, k);
  }

  /**
   * Where the cell is finite, the four detected branches add up to
   * `dr * dp`, the two undetected ones (broadcast from (0, k, 0)) to
   * `dr * (1 - dp)`, and all six to the detection rate.
   */
  lemma TransitionTensorsConserve(dr: Float, dp: real, h: seq<Float>, m: seq<seq<seq<real>>>, j: int, k: int, t: int)
    requires forall j :: 0 <= j < |m| ==> |m[j]| == |h|
    requires 0 <= j < |m| && 0 <= k < |h| && 0 <= t < |m[j][k]|
    requires dr.Finite? && h[k].Finite?
    ensures var tr := TransitionRatesFor(dr, dp, h, m);
            && tr.ihd[j][k][t].Finite? && tr.ihr[j][k][t].Finite? && tr.iqd[j][k][t].Finite?
            && tr.iqr[j][k][t].Finite? && tr.iud[0][k][0].Finite? && tr.iur[0][k][0].Finite?
            && tr.ihd[j][k][t].value + tr.ihr[j][k][t].value + tr.iqd[j][k][t].value + tr.iqr[j][k][t].value
               == dr.value * dp
            && tr.iud[0][k][0].value + tr.iur[0][k][0].value == dr.value * (1.0 - dp)
            && tr.ihd[j][k][t].value + tr.ihr[j][k][t].value + tr.iqd[j][k][t].value
               + tr.iqr[j][k][t].value + tr.iud[0][k][0].value + tr.iur[0][k][0].value == dr.value
  {
    var d, hk, mt := dr.value, h[k].value, m[j][k][t];
    var tr := TransitionRatesFor(dr, dp, h, m);
    TransitionCellValues(dr, dp, h, m, j, k, t);
    CellSums(tr.ihd[j][k][t].value, tr.ihr[j][k][t].value, tr.iqd[j][k][t].value,
             tr.iqr[j][k][t].value, tr.iud[0][k][0].value, tr.iur[0][k][0].value, d, dp, hk, mt);
  }

  /** The six cells at (j, k, t), or their broadcast cell, of finite factors hold the six branch rates. */
  lemma TransitionCellValues(dr: Float, dp: real, h: seq<Float>, m: seq<seq<seq<real>>>, j: int, k: int, t: int)
    requires forall j :: 0 <= j < |m| ==> |m[j]| == |h|
    requires 0 <= j < |m| && 0 <= k < |h| && 0 <= t < |m[j][k]|
    requires dr.Finite? && h[k].Finite?
    ensures var tr := TransitionRatesFor(dr, dp, h, m);
            var d, hk, mt := dr.value, h[k].value, m[j][k][t];
            && tr.ihd[j][k][t] == Finite(BranchRate(HospitalizedDying, d, dp, hk, mt))
            && tr.ihr[j][k][t] == Finite(BranchRate(HospitalizedRecovering, d, dp, hk, mt))
            && tr.iqd[j][k][t] == Finite(BranchRate(QuarantinedDying, d, dp, hk, mt))
            && tr.iqr[j][k][t] == Finite(BranchRate(QuarantinedRecovering, d, dp, hk, mt))
            && tr.iud[0][k][0] == Finite(BranchRate(UndetectedDying, d, dp, hk, mt))
            && tr.iur[0][k][0] == Finite(BranchRate(UndetectedRecovering, d, dp, hk, mt))
  {
    BranchTensorCell(HospitalizedDying, dr, dp, h, m, j, k, t);
    BranchTensorCell(HospitalizedRecovering, dr, dp, h, m, j, k, t);
    BranchTensorCell(QuarantinedDying, dr, dp, h, m, j, k, t);
    BranchTensorCell(QuarantinedRecovering, dr, dp, h, m, j, k, t);
    UndetectedTensorCell(UndetectedDying, dr, dp, h, k);
    UndetectedTensorCell(UndetectedRecovering, dr, dp, h, k);
    UndetectedIgnoresMortality(UndetectedDying, dr.value, dp, h[k].value, m[j][k][t]);
    UndetectedIgnoresMortality(UndetectedRecovering, dr.value, dp, h[k].value, m[j][k][t]);
  }

  /** Six values equal to the branch rates of one cell add up as the branches do. */
  lemma CellSums(ihd: real, ihr: real, iqd: real, iqr: real, iud: real, iur: real, d: real, dp: real, hk: real, mt: real)
    requires ihd == BranchRate(HospitalizedDying, d, dp, hk, mt) && ihr == BranchRate(HospitalizedRecovering, d, dp, hk, mt)
    requires iqd == BranchRate(QuarantinedDying, d, dp, hk, mt) && iqr == BranchRate(QuarantinedRecovering, d, dp, hk, mt)
    requires iud == BranchRate(UndetectedDying, d, dp, hk, mt) && iur == BranchRate(UndetectedRecovering, d, dp, hk, mt)
    ensures ihd + ihr + iqd + iqr == d * dp
    ensures iud + iur == d * (1.0 - dp)
    ensures ihd + ihr + iqd + iqr + iud + iur == d
  {
    BranchRatesConserve(d, dp, hk, mt);
  }

  /** The six median times of the epidemic model, in days. */
  datatype MedianTimes = MedianTimes(
    progression: real, detection: real,
    hospitalizedDeath: real, unhospitalizedDeath: real,
    hospitalizedRecovery: real, unhospitalizedRecovery: real)

  /** The rates derived from the median times. */
  datatype HalfLifeRates = HalfLifeRates(
    progression: Float, detection: Float,
    hospitalizedDeath: Float, unhospitalizedDeath: Float,
    hospitalizedRecovery: Float, unhospitalizedRecovery: Float)

  /** `ln 2 / median`: the rate of an exponential decay with the given half-life. */
  function HalfLifeRate(ln2: real, median: real): (r: Float)
    ensures r.Finite? <==> median != 0.0
    ensures r.Finite? ==> r.value * median == ln2
  {
    Divide(ln2, median)
  }

  /** A longer positive half-life gives a slower positive rate. */
  lemma HalfLifeRateAntitone(ln2: real, shorter: real, longer: real)
    requires ln2 > 0.0 && 0.0 < shorter < longer
    ensures 0.0 < HalfLifeRate(ln2, longer).value < HalfLifeRate(ln2, shorter).value
  {
    var fast, slow := HalfLifeRate(ln2, shorter).value, HalfLifeRate(ln2, longer).value;
    assert fast * shorter == ln2 && slow * longer == ln2;
    assert slow > 0.0;
    assert slow * shorter < slow * longer;
  }

  /**
   * The rates as the assembly computes them: the unhospitalised recovery
   * rate is divided by the unhospitalised death median, not the recovery
   * median.
   */
  function HalfLifeRatesAsWritten(ln2: real, med: MedianTimes): (r: HalfLifeRates)
    ensures r.unhospitalizedRecovery == r.unhospitalizedDeath
  {
    HalfLifeRates(
      HalfLifeRate(ln2, med.progression), HalfLifeRate(ln2, med.detection),
      HalfLifeRate(ln2, med.hospitalizedDeath), HalfLifeRate(ln2, med.unhospitalizedDeath),
      HalfLifeRate(ln2, med.hospitalizedRecovery), HalfLifeRate(ln2, med.unhospitalizedDeath))
  }

  /** Each rate converted from its own median. */
  function HalfLifeRatesFor(ln2: real, med: MedianTimes): (r: HalfLifeRates)
    ensures r.unhospitalizedRecovery.Finite? <==> med.unhospitalizedRecovery != 0.0
    ensures r.unhospitalizedRecovery.Finite? ==> r.unhospitalizedRecovery.value * med.unhospitalizedRecovery == ln2
    ensures r.hospitalizedRecovery.Finite? ==> r.hospitalizedRecovery.value * med.hospitalizedRecovery == ln2
    ensures r.unhospitalizedDeath.Finite? ==> r.unhospitalizedDeath.value * med.unhospitalizedDeath == ln2
    ensures r.hospitalizedDeath.Finite? ==> r.hospitalizedDeath.value * med.hospitalizedDeath == ln2
    ensures r.detection.Finite? ==> r.detection.value * med.detection == ln2
    ensures r.progression.Finite? ==> r.progression.value * med.progression == ln2
  {
    var progression := HalfLifeRate(ln2, med.progression);
    var detection := HalfLifeRate(ln2, med.detection);
    var hospitalizedDeath := HalfLifeRate(ln2, med.hospitalizedDeath);
    var unhospitalizedDeath := HalfLifeRate(ln2, med.unhospitalizedDeath);
    var hospitalizedRecovery := HalfLifeRate(ln2, med.hospitalizedRecovery);
    var unhospitalizedRecovery := HalfLifeRate(ln2, med.unhospitalizedRecovery);
    HalfLifeRates(progression, detection, hospitalizedDeath, unhospitalizedDeath, hospitalizedRecovery, unhospitalizedRecovery)
  }

  /** Every corrected rate has its own median as half-life. */
  lemma HalfLifeRatesMatchMedians(ln2: real, med: MedianTimes)
    requires med.progression != 0.0 && med.detection != 0.0
    requires med.hospitalizedDeath != 0.0 && med.unhospitalizedDeath != 0.0
    requires med.hospitalizedRecovery != 0.0 && med.unhospitalizedRecovery != 0.0
    ensures var r := HalfLifeRatesFor(ln2, med);
            && r.progression.value * med.progression == ln2
            && r.detection.value * med.detection == ln2
            && r.hospitalizedDeath.value * med.hospitalizedDeath == ln2
            && r.unhospitalizedDeath.value * med.unhospitalizedDeath == ln2
            && r.hospitalizedRecovery.value * med.hospitalizedRecovery == ln2
            && r.unhospitalizedRecovery.value * med.unhospitalizedRecovery == ln2
  {
  }

  /** With a non-zero `ln 2`, equal half-life rates come from equal medians. */
  lemma SameRateSameMedian(ln2: real, a: real, b: real)
    requires ln2 != 0.0 && a != 0.0 && b != 0.0
    requires HalfLifeRate(ln2, a) == HalfLifeRate(ln2, b)
    ensures a == b
  {
    var q := HalfLifeRate(ln2, a).value;
    assert q * a == ln2 && q * b == ln2;
    assert q != 0.0;
    assert q * (a - b) == 0.0;
  }

  /**
   * Whenever the two unhospitalised medians differ, the computed recovery
   * rate is not `ln 2` over the recovery median.
   */
  lemma AsWrittenRecoveryRateIsWrong(ln2: real, med: MedianTimes)
    requires ln2 != 0.0
    requires med.unhospitalizedDeath != 0.0 && med.unhospitalizedRecovery != 0.0
    requires med.unhospitalizedDeath != med.unhospitalizedRecovery
    ensures HalfLifeRatesAsWritten(ln2, med).unhospitalizedRecovery != HalfLifeRatesFor(ln2, med).unhospitalizedRecovery
  {
    if HalfLifeRatesAsWritten(ln2, med).unhospitalizedRecovery == HalfLifeRatesFor(ln2, med).unhospitalizedRecovery {
      SameRateSameMedian(ln2, med.unhospitalizedDeath, med.unhospitalizedRecovery);
    }
  }

  /** The assembled parameter set. */
  datatype Params = Params(
    infectionRate: seq<real>,
    policyResponse: seq<seq<real>>,
    rates: HalfLifeRates,
    transitions: TransitionRates,
    mortalityRate: seq<seq<seq<real>>>,
    daysPerTimestep: real)

  /**
   * Assembles the parameter set. The infection rates, the policy response,
   * the hospitalisation rates and the mortality-rate tensor are computed
   * elsewhere; `dp` is the detection probability.
   */
  function GetDelphiParams(
    ln2: real, med: MedianTimes, dp: real, daysPerTimestep: real,
    infectionRate: seq<real>, policyResponse: seq<seq<real>>,
    hospitalizationRate: seq<Float>, mortalityRate: seq<seq<seq<real>>>
  ): (p: Params)
    requires forall j :: 0 <= j < |mortalityRate| ==> |mortalityRate[j]| == |hospitalizationRate|
    ensures p.rates == HalfLifeRatesFor(ln2, med)
    ensures p.rates.unhospitalizedRecovery.Finite? ==> p.rates.unhospitalizedRecovery.value * med.unhospitalizedRecovery == ln2
    ensures p.transitions == TransitionRatesFor(p.rates.detection, dp, hospitalizationRate, mortalityRate)
    ensures p.infectionRate == infectionRate && p.policyResponse == policyResponse
    ensures p.mortalityRate == mortalityRate && p.daysPerTimestep == daysPerTimestep
  {
    var rates := HalfLifeRatesFor(ln2, med);
    Params(infectionRate, policyResponse, rates,
           TransitionRatesFor(rates.detection, dp, hospitalizationRate, mortalityRate),
           mortalityRate, daysPerTimestep)
  }
}
