# Optimal vaccine allocation: parameter derivation, modelled in Dafny

This project models the data-preparation core of an epidemic vaccine-allocation pipeline:

- **DELPHI parameter derivation** (`src/data_utils/data_processing.py`):
  - the region × risk-class population matrix built from an age-banded population table;
  - per-risk-class hospitalisation and baseline mortality rates, taken from a clinical aggregate table;
  - initial conditions, obtained by apportioning each region's start-date trajectory counts over its risk classes;
  - the first-difference series handed to the mortality-rate estimator;
  - the half-life rates, and the six transition rates out of the infectious compartment;
  - the vaccine-parameter builder.
- **Toy-data helpers** (`src/utils/data_processing.py`):
  - binning of census age columns into half-open age classes;
  - the constant budget schedule;
  - the scaled, truncated and tiled toy instance.

How the model represents the source:

- **Numbers.** Numbers are exact `real`s. A numpy division by zero does not raise: it produces NaN or an infinity. That result is kept as the `NonFinite` case of `Numerics.Float`, for the clinical rates of a class with no cases and for the initial-condition row of a region with no population.
- **Imperative code.** Code that fills preallocated arrays with loops becomes methods over `array`/`array2`, each proved against a specification function:
  - the population matrix, the clinical rates and the initial-condition arrays;
  - the column-by-column binning and the in-place `pop /= unit`.
- **Mutated list.** The caller's cutoff list that the binning pads in place is the class `ToyData.AgeCutoffs`.
- **Pure code.** The transition-rate algebra, the vaccine builder and the budget schedule are functions.
- **Regions.** The population matrix has one row per distinct state of the population table, in first-appearance order (`Population.Regions`). The start-date snapshot is sorted by state name (`StateOrder.SortByState`). As in the source, the j-th snapshot row is paired with the j-th region by position only: nothing checks that the two states agree.
- **Risk classes.** `RiskClass` values and the constants of `src/data_utils/constants.py` are parameters. That file is not part of this model. The constants are `N_TIMESTEPS`, `DETECTION_PROBABILITY`, `MAX_PCT_CHANGE`, `N_TIMESTEPS_PER_ESTIMATE`, `DAYS_PER_TIMESTEP` and the median times.

## Model

| member | source | states |
|---|---|---|
| Numerics.Divide | src/data_utils/data_processing.py:46 | numpy division: finite exactly when the denominator is non-zero, and then the quotient times the denominator gives back the numerator |
| Population.UniqueInOrder | src/data_utils/data_processing.py:12 | `unique()` has no duplicates, holds exactly the values of the column, and is no longer than it |
| Population.UniqueInOrderFirstAppearance | src/data_utils/data_processing.py:12 | distinct values come in order of first appearance: every occurrence of the j-th is preceded by an occurrence of each earlier one |
| Population.WithinClass | src/data_utils/data_processing.py:17-18 | for a well-formed band, the mask holds exactly when every age of the band lies in the class |
| Population.Regions | src/data_utils/data_processing.py:12 | the regions have no duplicates and are exactly the states that occur in the table |
| Population.ClassPopulationIsMaskedSum | src/data_utils/data_processing.py:16-20 | the row-by-row accumulation equals the sum of the population column with every row outside the mask (other state, or band not within the class) zeroed |
| Population.PopulationByStateAndRiskClass | src/data_utils/data_processing.py:11-21 | returns the regions in first-appearance order and a fresh regions × classes matrix whose cell (j, k) is the population of region j's rows whose band lies within class k |
| Population.ClassPopulationConcat | src/data_utils/data_processing.py:16-20 | the masked sum is additive over concatenated tables |
| Population.StraddlingRowIgnored | src/data_utils/data_processing.py:17-18 | a row whose band is not contained in the class leaves the cell unchanged wherever it sits: the test is containment, not overlap |
| Population.ClassPopulationNonNegative | src/data_utils/data_processing.py:16-20 | non-negative populations give non-negative cells |
| Population.ClassPopulationsAppend | src/data_utils/data_processing.py:15-20 | a new row adds its population to a region's row total once per class containing its band |
| Population.RegionTotalWhenClassesPartition | src/data_utils/data_processing.py:13-20 | when each of the region's rows lies within exactly one class, the region's matrix row sums to its total population |
| Population.RegionTotalAtMostStatePopulation | src/data_utils/data_processing.py:13-20 | when no row lies within two classes and populations are non-negative, the region's matrix row sums to at most its total population |
| ClinicalRates.ColumnTotalIsMaskedSum | src/data_utils/data_processing.py:42-45 | the row-by-row accumulation equals the sum of the column with every row whose band is not within the class zeroed |
| ClinicalRates.ColumnTotalConcat | src/data_utils/data_processing.py:42-45 | the masked column total is additive over concatenated tables |
| ClinicalRates.HospitalizationRate | src/data_utils/data_processing.py:42-46 | finite exactly when the class's case total is non-zero, and then rate × cases = hospitalisations over the contained rows |
| ClinicalRates.BaselineMortalityRate | src/data_utils/data_processing.py:53-57 | finite exactly when the class's case total is non-zero, and then rate × cases = deaths over the contained rows |
| ClinicalRates.HospitalizationRateByRiskClass | src/data_utils/data_processing.py:39-47 | one rate per class, finite exactly when the class's case total is non-zero, and then rate × cases = hospitalisations over the contained rows |
| ClinicalRates.BaselineMortalityRateEstimates | src/data_utils/data_processing.py:50-58 | one rate per class, finite exactly when the class's case total is non-zero, and then rate × cases = deaths over the contained rows |
| ClinicalRates.ColumnTotalBounded | src/data_utils/data_processing.py:42-45 | a column bounded row by row by another stays bounded after the masked sum |
| ClinicalRates.RatesDefinedTogether | src/data_utils/data_processing.py:39-58 | both rates of a class are defined under the same condition, since both use the same mask and the same case total |
| ClinicalRates.RatesAreProbabilities | src/data_utils/data_processing.py:39-58 | with 0 ≤ hospitalisations ≤ cases and 0 ≤ deaths ≤ cases per row and a positive case total, both rates lie in [0, 1] |
| ClinicalRates.StraddlingRowIgnoredByRates | src/data_utils/data_processing.py:42-45 | a row whose band is not within the class changes no column total of the class, wherever it sits in the table |
| ClinicalRates.TwoClassExample | src/data_utils/data_processing.py:39-58 | classes 0-49 and 50-120 with cases 1000/500, hospitalisations 50/150 and deaths 5/50 give rates 0.05/0.30 and 0.005/0.10 |
| MortalityIncrements.Increments | src/data_utils/data_processing.py:75 | `diff().dropna()` has one entry fewer than a non-empty series |
| MortalityIncrements.IncrementsTelescope | src/data_utils/data_processing.py:72-75 | the increments add up to the last cumulative value minus the first |
| MortalityIncrements.IncrementsReconstruct | src/data_utils/data_processing.py:72-75 | the first value plus the first i increments gives back the i-th cumulative value |
| MortalityIncrements.RegionRowsSince | src/data_utils/data_processing.py:72-74 | the selected rows are exactly the region's rows dated on or after the start date, and no more than the table's |
| MortalityIncrements.RegionRowsSinceConcat | src/data_utils/data_processing.py:72-74 | the selection keeps table order: selecting from two consecutive parts of the table concatenates the two selections |
| MortalityIncrements.RegionRowsSinceSingle | src/data_utils/data_processing.py:72-74 | a single row is kept exactly when it belongs to the region and is dated on or after the start date |
| MortalityIncrements.EstimatorInputFor | src/data_utils/data_processing.py:71-84 | the cases are the first differences of the selected rows' exposed counts and the deaths those of their deceased counts, one entry shorter than the selection and telescoping to the growth in each; the population and baseline pass through, and one constant, `max_pct_change`, fills both calibration bounds, and the timesteps per estimate pass through |
| Apportionment.Apportion | src/data_utils/data_processing.py:106-109 | one share per class, each finite exactly when the region's population total is non-zero |
| Apportionment.ApportionConservesCount | src/data_utils/data_processing.py:105-109 | for a region with a non-zero population total, the apportioned row is finite and sums to the region's aggregate count |
| Apportionment.ApportionProportional | src/data_utils/data_processing.py:106-107 | each share is count × population[j, k] / Σ_k population[j, k] |
| Apportionment.DegenerateRegionIsNonFinite | src/data_utils/data_processing.py:106 | a region with a zero population total gets a NaN/inf row |
| Apportionment.ApportionNonNegative | src/data_utils/data_processing.py:106-109 | a non-negative count over non-negative populations gives non-negative shares |
| Apportionment.SnapshotAt | src/data_utils/data_processing.py:102-103 | the filter keeps exactly the trajectory rows dated at the start date |
| Apportionment.SnapshotAtConcat | src/data_utils/data_processing.py:102-103 | the filter keeps table order: filtering two consecutive parts of the table concatenates the two results |
| StateOrder.StrLeq | src/data_utils/data_processing.py:104 | Python's `<=` on strings, lexicographic by code point: it contains the prefix order |
| StateOrder.StrLeqAntisymmetric | src/data_utils/data_processing.py:104 | two state names each at most the other are equal |
| StateOrder.StrLeqTotal | src/data_utils/data_processing.py:104 | any two state names are comparable |
| StateOrder.StrLeqTransitive | src/data_utils/data_processing.py:104 | the string order is transitive |
| StateOrder.InsertByState | src/data_utils/data_processing.py:104 | inserting adds the row once and keeps every other row: the result is a permutation of the input plus the row |
| StateOrder.InsertByStateSorted | src/data_utils/data_processing.py:104 | inserting into rows sorted by state keeps them sorted |
| StateOrder.SortByState | src/data_utils/data_processing.py:104 | `sort_values("state")` returns a permutation of its input in non-decreasing order of state name |
| Apportionment.StartSnapshot | src/data_utils/data_processing.py:102-104 | the start-date rows, each as often as in the filter, in non-decreasing order of state name |
| Apportionment.InitialCompartment | src/data_utils/data_processing.py:98-109 | an initial-condition tensor has one row per region of the population matrix and one entry per risk class |
| Apportionment.InitialCompartmentConservesCounts | src/data_utils/data_processing.py:105-109 | each region with a snapshot row and a non-zero population gets a finite initial row summing to its susceptible, exposed or infected count |
| Apportionment.InitialCompartmentRows | src/data_utils/data_processing.py:105-109 | the expected tensor holds apportioned rows for the snapshot regions and zero rows after them |
| Apportionment.SetRow | src/data_utils/data_processing.py:107-109 | `a[j, :] = values` overwrites row j and leaves every other cell unchanged |
| Apportionment.FillCompartment | src/data_utils/data_processing.py:105-109 | the loop leaves every row of the array equal to the expected tensor's |
| Apportionment.NewInitialCompartment | src/data_utils/data_processing.py:98-109 | a fresh zero array, filled from the snapshot, holds the expected tensor |
| Apportionment.SeededCompartments | src/data_utils/data_processing.py:99-109 | three distinct fresh arrays holding the apportioned susceptible, exposed and infected tensors |
| Apportionment.GetInitialConditions | src/data_utils/data_processing.py:88-124 | returns the population matrix; the three apportioned tensors, built from the start-date rows sorted by state, are distinct fresh arrays of its shape (one column per risk class) holding the expected rows, each distinct from the one all-zero array that the other seven compartments share |
| DelphiParams.BranchRatesConserve | src/data_utils/data_processing.py:166-171 | ihd + ihr = dr·dp·h, iqd + iqr = dr·dp·(1−h), the four detected rates sum to dr·dp, iud + iur = dr·(1−dp), and all six sum to dr |
| DelphiParams.BranchRateBounded | src/data_utils/data_processing.py:166-171 | with dr ≥ 0 and dp, h, m in [0, 1], every transition rate lies in [0, dr] |
| DelphiParams.BranchTensor | src/data_utils/data_processing.py:143 | broadcasting `h[None, :, None]` against the mortality tensor gives one cell per region, class and timestep |
| DelphiParams.TransitionRatesFor | src/data_utils/data_processing.py:166-171 | the four detected tensors (hospitalised and quarantined) carry the mortality tensor's region × class × timestep shape; the two undetected tensors have no mortality factor and are 1 × class × 1, as numpy broadcasting gives them |
| DelphiParams.UndetectedTensor | src/data_utils/data_processing.py:170-171 | an undetected branch's tensor is 1 × class × 1, one cell per class |
| DelphiParams.TransitionTensorsFinite | src/data_utils/data_processing.py:166-171 | cell by cell (the undetected tensors at their broadcast cell (0, k, 0)), each of the six tensors is finite exactly when the detection rate and the class's hospitalisation rate are |
| DelphiParams.TransitionTensorsConserve | src/data_utils/data_processing.py:166-171 | with finite factors, all six cells (cell (j, k, t) of the detected tensors, cell (0, k, 0) of the undetected ones) are finite; ihd + ihr + iqd + iqr = dr·dp, iud + iur = dr·(1−dp), and all six sum to dr |
| DelphiParams.HalfLifeRate | src/data_utils/data_processing.py:154-158 | ln 2 / median is finite exactly for a non-zero median, and then rate × median = ln 2 |
| DelphiParams.HalfLifeRateAntitone | src/data_utils/data_processing.py:154-158 | a longer positive median gives a slower positive rate |
| DelphiParams.HalfLifeRatesAsWritten | src/data_utils/data_processing.py:154-159 | as written, the unhospitalised recovery rate equals the unhospitalised death rate |
| DelphiParams.AsWrittenRecoveryRateIsWrong | src/data_utils/data_processing.py:159 | whenever the two unhospitalised medians differ, the computed recovery rate differs from ln 2 / recovery median |
| DelphiParams.HalfLifeRatesFor | src/data_utils/data_processing.py:154-159 | corrected conversion: each finite rate times its own median gives ln 2, and the unhospitalised recovery rate is finite exactly when its own median is non-zero |
| DelphiParams.HalfLifeRatesMatchMedians | src/data_utils/data_processing.py:154-159 | each corrected rate times its own median gives ln 2 |
| DelphiParams.GetDelphiParams | src/data_utils/data_processing.py:161-178 | the assembled set carries the corrected rates, including recovery rate × recovery median = ln 2; the transition tensors are split from the detection rate; the infection rates, the policy response, the mortality tensor and the timestep length pass through |
| VaccineParams.Truthy | src/data_utils/data_processing.py:196 | Python truthiness of an optional number: false for `None` and for 0, true otherwise |
| VaccineParams.GetVaccineParams | src/data_utils/data_processing.py:181-203 | the budget has one entry per timestep, each equal to total_pop × budget_pct; the capacity uses the capacity percentage when it is present and non-zero, and the budget percentage otherwise; excluded classes default to empty; the other arguments pass through |
| VaccineParams.VaccineBudgetTotal | src/data_utils/data_processing.py:195 | the budget over the horizon is N_TIMESTEPS × total_pop × budget_pct |
| VaccineParams.DefaultCapacityIsOneTimestepBudget | src/data_utils/data_processing.py:195-196 | without a capacity percentage, the total capacity equals one timestep's budget |
| VaccineParams.MillionPopulationExample | src/data_utils/data_processing.py:193-203 | total_pop 1e6 with a 10% budget gives 1e5 per timestep and a capacity of 1e5 |
| ToyData.AtLeast | src/utils/data_processing.py:18 | `int(age) >= cutoff`: no age reaches the +inf cutoff, and every non-negative age reaches a cutoff of at most 0 |
| ToyData.Below | src/utils/data_processing.py:18 | `int(age) < cutoff` is the negation of `int(age) >= cutoff` |
| ToyData.InBand | src/utils/data_processing.py:17-18 | the column mask: the age is at least the lower cutoff and not at least the upper one; a class with equal cutoffs is empty |
| ToyData.AgeCutoffs.constructor | src/utils/data_processing.py:104 | the list holds the given cutoffs as finite bounds |
| ToyData.AgeCutoffs.Pad | src/utils/data_processing.py:11-12 | the list becomes 0, the old cutoffs, +inf |
| ToyData.ClassTotalIsMaskedSum | src/utils/data_processing.py:17-19 | the column-by-column accumulation equals the sum of the row with every column whose age is outside `[lo, hi)` zeroed |
| ToyData.ClassTotals | src/utils/data_processing.py:13-19 | one total per class: one entry fewer than the padded cutoffs |
| ToyData.SetColumn | src/utils/data_processing.py:17 | `pop[:, i] = values` overwrites column i and leaves every other cell unchanged |
| ToyData.ProcessPopData | src/utils/data_processing.py:7-21 | pads the caller's cutoffs in place and returns a fresh rows × (cutoffs + 1) matrix whose cell (r, i) sums row r's columns with `cutoffs[i] <= age < cutoffs[i+1]` |
| ToyData.ClassTotalNonNegative | src/utils/data_processing.py:17-19 | non-negative entries give non-negative cells |
| ToyData.ClassTotalsAppend | src/utils/data_processing.py:16-19 | a new column adds its value once for each class whose band holds its age |
| ToyData.RowTotalPreserved | src/utils/data_processing.py:16-19 | when every column age lies in exactly one class, each output row sums to the input row's total |
| ToyData.PaddedCutoffsIncreasing | src/utils/data_processing.py:11-12 | padding increasing positive cutoffs with 0 and +inf gives a strictly increasing list |
| ToyData.ExactlyOneClass | src/utils/data_processing.py:16-18 | with strictly increasing bounds from at most the age up to +inf, the age lies in exactly one half-open class |
| ToyData.BinningPreservesRowTotals | src/utils/data_processing.py:11-19 | with increasing positive cutoffs and non-negative ages, binning keeps every row's total |
| ToyData.RemainingIsTotalLessImmuneAndActive | src/utils/data_processing.py:84 | the remaining population Σ(pop − immunized − active) equals Σpop − Σimmunized − Σactive |
| ToyData.BudgetFromPop | src/utils/data_processing.py:78-84 | n entries, each the remaining population times budget_pct |
| ToyData.BudgetFromPopTotal | src/utils/data_processing.py:84 | the schedule adds up to (n × budget_pct) × the remaining population |
| ToyData.BudgetFromPopHandsOutRemaining | src/utils/data_processing.py:84 | when n × budget_pct = 1, the schedule hands out exactly the remaining population |
| ToyData.SliceEnd | src/utils/data_processing.py:114-115 | Python's `xs[:stop]` end: `stop` clamped to the length, a negative `stop` counted from the end, and 0 when it reaches past the start |
| ToyData.KeepRegions | src/utils/data_processing.py:113-115 | the kept regions are a prefix of the table |
| ToyData.KeepRegionsCount | src/utils/data_processing.py:113-115 | a positive limit keeps min(limit, length) regions; a negative one drops that many from the end; an absent or zero limit keeps all |
| ToyData.KeepRegionsAligned | src/utils/data_processing.py:113-115 | the population and the reproduction factors keep the same number of regions |
| ToyData.DivideInPlace | src/utils/data_processing.py:112 | divides exactly when the unit is non-zero, and then every cell is divided by the unit in place; otherwise the array is unchanged |
| ToyData.ZeroFirstTimestep | src/utils/data_processing.py:118-119 | the budget array is the schedule with its first entry set to 0 |
| ToyData.GetToyDataFromCensusData | src/utils/data_processing.py:87-121 | the population is divided in place; pop and rep_factor keep the same leading regions; immunised and active are element-wise fractions of the kept population; the budget is the constant schedule with a zero first timestep; every morbidity row equals the input tuple |
| ToyData.ToyRemainingPopulation | src/utils/data_processing.py:116-118 | with immune and active fractions, the remaining population is (1 − pct_immune − pct_active_cases) × the total |

## Left out

- The policy-response curve (`get_policy_response_by_state_and_timestep`, src/data_utils/data_processing.py:24-36) uses float `arctan`, `exp`, π and date arithmetic. It enters `GetDelphiParams` as an input matrix.
- `MortalityRateEstimator.solve()` is an external optimiser. Its source is not part of this model. Its output enters `GetDelphiParams` as an input tensor. The model covers one region's call inputs (`EstimatorInputFor`) but not the loop that writes the estimates into the tensor.
- `np.log(2)` is the parameter `ln2`. Logarithms are not modelled.
- Float rounding is not modelled: all arithmetic is exact.
- CSV reading and the pandas plumbing are not modelled: `process_census_data`, `process_density_data`, `load_data`, the group-by and the merge (src/utils/data_processing.py:24-60, 124-131).
- `sigmoid` and `toy_rep_factor_model` use `exp`, a mean and a standard deviation. Their output enters `GetToyDataFromCensusData` as the input `repFactor`.
- Parsing of age column labels (`int(age)`) is not modelled: column ages are given as integers.
- `int(np.round(1 / budget_pct))` is given as the natural-number parameter `n` / `nBudget`.
- Three source defects are modelled as evidently intended, not as written:
  - `get_mortality_rate_estimates` reads the column `"states"` (src/data_utils/data_processing.py:69). The population table has `"state"`, so the function raises a key error there and never reaches its loop. The model reads `"state"`.
  - Lines 72-75 unpack a two-column frame into `cases, deaths`. Iterating a frame yields its column labels, so as written `cases` and `deaths` would be the strings `"exposed"` and `"deceased"`; this does not raise. The model passes the two difference series that the names describe.
  - Line 109 reads the field `"infectious"` from a row of the frame that selected `"infected"` (line 104). This raises a key error as soon as there is a start-date row. The model reads the infected count.
- Apportionment.GetInitialConditions: requires no more start-date rows than regions in the population table. With more rows, `population[j, :]` at line 106 raises an index error.
- ToyData.DivideInPlace: a zero `unit` makes numpy fill the population with NaN/inf. A `real` cell cannot hold those values, so the method reports that it did not divide and leaves the cells unchanged.
- ToyData.GetToyDataFromCensusData: requires a non-zero `unit`. With a zero unit, numpy would fill the population with NaN/inf instead.
- ToyData.GetToyDataFromCensusData: requires `nBudget >= 1`. With an empty schedule, `budget[0] = 0` raises.
- StateOrder.SortByState: pandas' default `sort_values` promises no order among rows of the same state. The model fixes one, the stable order (each row before later rows of its state), so `StartSnapshot` and the initial conditions are specified for that order.
- DelphiParams.GetDelphiParams: assembles the corrected half-life rates (`HalfLifeRatesFor`, see Findings). Line 159 as written divides by the unhospitalised death median; that version is `HalfLifeRatesAsWritten`. The unhospitalised recovery median is a parameter of the model, since the code names only five median constants and none for that recovery.
- DelphiParams.GetDelphiParams: requires every region of the mortality tensor to have one row per hospitalisation rate. numpy would also broadcast a single hospitalisation rate, or a class dimension of 1, against the other; the requires excludes those shapes too.

## Findings

| source | as written | input that shows it | evidently intended | confidence | as-written member | corrected member |
|---|---|---|---|---|---|---|
| src/data_utils/data_processing.py:159 | `unhospitalized_recovery_rate = ln 2 / MEDIAN_UNHOSPITALIZED_DEATH_TIME` | any median times where the unhospitalised death median differs from the unhospitalised recovery median | `ln 2 / MEDIAN_UNHOSPITALIZED_RECOVERY_TIME`, so that every rate has its own median as half-life | not executed | DelphiParams.AsWrittenRecoveryRateIsWrong | DelphiParams.HalfLifeRatesMatchMedians |
