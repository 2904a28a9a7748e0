/**
 * The vaccine-parameter builder: a constant per-timestep vaccine budget,
 * a total capacity that falls back to the per-timestep budget, and the
 * allocation bounds passed through unchanged.
 */
module VaccineParams {
  import opened Numerics

  /** The returned mapping of vaccine parameters. */
  datatype VaccineParams = VaccineParams(
    vaccineEffectiveness: real,
    vaccineBudget: seq<real>,
    maxTotalCapacity: real,
    maxAllocationPct: real,
    minAllocationPct: real,
    maxDecreasePct: real,
    maxIncreasePct: real,
    optimizeCapacity: bool,
    excludedRiskClasses: seq<int>)

  /** Python truthiness of an optional number: present and non-zero. */
  predicate Truthy(x: Option<real>)
    ensures Truthy(x) <==> x != None && x != Some(0.0)
  {
    x.Some? && x.value != 0.0
  }

  /**
   * Builds the vaccine parameters for `nTimesteps` timesteps. An absent
   * list of excluded risk classes, or an empty one, gives an empty list.
   */
  function GetVaccineParams(
    nTimesteps: nat, totalPop: real, vaccineEffectiveness: real, vaccineBudgetPct: real,
    maxAllocationPct: real, minAllocationPct: real, maxDecreasePct: real, maxIncreasePct: real,
    maxTotalCapacityPct: Option<real>, optimizeCapacity: bool, excludedRiskClasses: Option<seq<int>>
  ): (p: VaccineParams)
    ensures |p.vaccineBudget| == nTimesteps
    ensures forall t :: 0 <= t < nTimesteps ==> p.vaccineBudget[t] == totalPop * vaccineBudgetPct
    ensures Truthy(maxTotalCapacityPct) ==> p.maxTotalCapacity == maxTotalCapacityPct.value * totalPop
    ensures !Truthy(maxTotalCapacityPct) ==> p.maxTotalCapacity == vaccineBudgetPct * totalPop
    ensures excludedRiskClasses.Some? ==> p.excludedRiskClasses == excludedRiskClasses.value
    ensures excludedRiskClasses.None? ==> p.excludedRiskClasses == []
    ensures p.vaccineEffectiveness == vaccineEffectiveness && p.optimizeCapacity == optimizeCapacity
    ensures p.maxAllocationPct == maxAllocationPct && p.minAllocationPct == minAllocationPct
    ensures p.maxDecreasePct == maxDecreasePct && p.maxIncreasePct == maxIncreasePct
  {
    var capacityPct := if Truthy(maxTotalCapacityPct) then maxTotalCapacityPct.value else vaccineBudgetPct;
    var excluded := if excludedRiskClasses.Some? && excludedRiskClasses.value != [] then excludedRiskClasses.value else [];
    VaccineParams(
      vaccineEffectiveness,
      seq(nTimesteps, _ => totalPop * vaccineBudgetPct),
      capacityPct * totalPop,
      maxAllocationPct, minAllocationPct, maxDecreasePct, maxIncreasePct,
      optimizeCapacity, excluded)
  }

  /** Over the horizon the budget adds up to `nTimesteps * totalPop * vaccineBudgetPct`. */
  lemma VaccineBudgetTotal(
    nTimesteps: nat, totalPop: real, vaccineEffectiveness: real, vaccineBudgetPct: real,
    maxAllocationPct: real, minAllocationPct: real, maxDecreasePct: real, maxIncreasePct: real,
    maxTotalCapacityPct: Option<real>, optimizeCapacity: bool, excludedRiskClasses: Option<seq<int>>)
    ensures var p := GetVaccineParams(nTimesteps, totalPop, vaccineEffectiveness, vaccineBudgetPct,
                                      maxAllocationPct, minAllocationPct, maxDecreasePct, maxIncreasePct,
                                      maxTotalCapacityPct, optimizeCapacity, excludedRiskClasses);
            Sum(p.vaccineBudget) == nTimesteps as real * (totalPop * vaccineBudgetPct)
  {
    var p := GetVaccineParams(nTimesteps, totalPop, vaccineEffectiveness, vaccineBudgetPct,
                              maxAllocationPct, minAllocationPct, maxDecreasePct, maxIncreasePct,
                              maxTotalCapacityPct, optimizeCapacity, excludedRiskClasses);
    SumConstant(p.vaccineBudget, totalPop * vaccineBudgetPct);
  }

  /**
   * Without a capacity percentage (absent or zero), the total capacity is
   * one timestep's budget: no timestep can use more than it is given.
   */
  lemma DefaultCapacityIsOneTimestepBudget(
    nTimesteps: nat, totalPop: real, vaccineEffectiveness: real, vaccineBudgetPct: real,
    maxAllocationPct: real, minAllocationPct: real, maxDecreasePct: real, maxIncreasePct: real,
    maxTotalCapacityPct: Option<real>, optimizeCapacity: bool, excludedRiskClasses: Option<seq<int>>, t: int)
    requires !Truthy(maxTotalCapacityPct)
    requires 0 <= t < nTimesteps
    ensures var p := GetVaccineParams(nTimesteps, totalPop, vaccineEffectiveness, vaccineBudgetPct,
                                      maxAllocationPct, minAllocationPct, maxDecreasePct, maxIncreasePct,
                                      maxTotalCapacityPct, optimizeCapacity, excludedRiskClasses);
            p.maxTotalCapacity == p.vaccineBudget[t]
  {
  }

  /** A population of one million with a 10% budget gets 100000 doses per timestep and, by default, that capacity. */
  lemma MillionPopulationExample()
    ensures var p := GetVaccineParams(3, 1000000.0, 0.9, 0.1, 0.5, 0.0, 0.1, 0.1, Some(0.0), false, Some([]));
            && p.vaccineBudget == [100000.0, 100000.0, 100000.0]
            && p.maxTotalCapacity == 100000.0
            && p.excludedRiskClasses == []
  {
  }
}
