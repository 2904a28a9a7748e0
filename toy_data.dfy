/**
 * The toy-data helpers: age columns of a census table binned into
 * half-open age classes, a constant vaccine-budget schedule, and the toy
 * instance built from them (scaled populations, immune and active
 * fractions, a truncated region list and a tiled morbidity table).
 *
 * Matrices are sequences of rows; the population matrix produced by the
 * binning is an `array2`, filled column by column as the source does.
 */
module ToyData {
  import opened Numerics

  /** A padded age cutoff: a finite age, or the `+inf` appended at the end. */
  datatype AgeBound = At(age: real) | Unbounded

  /** `int(age) >= bound`. */
  predicate AtLeast(age: int, b: AgeBound)
    ensures b == Unbounded ==> !AtLeast(age, b)
    ensures b.At? && b.age <= 0.0 && age >= 0 ==> AtLeast(age, b)
  {
    match b
    case At(c) => age as real >= c
    case Unbounded => false
  }

  /** `int(age) < bound`. */
  predicate Below(age: int, b: AgeBound)
    ensures Below(age, b) <==> !AtLeast(age, b)
  {
    match b
    case At(c) => (age as real) < c
    case Unbounded => true
  }

  /** The half-open class `[lo, hi)`. */
  predicate InBand(age: int, lo: AgeBound, hi: AgeBound)
    ensures InBand(age, lo, hi) <==> AtLeast(age, lo) && !AtLeast(age, hi)
    ensures lo == hi ==> !InBand(age, lo, hi)
  {
    AtLeast(age, lo) && Below(age, hi)
  }

  /** The caller's list of age cutoffs, which the binning pads in place. */
  class AgeCutoffs {
    var bounds: seq<AgeBound>

    constructor (cutoffs: seq<real>)
      ensures |bounds| == |cutoffs|
      ensures forall i :: 0 <= i < |cutoffs| ==> bounds[i] == At(cutoffs[i])
    {
      bounds := seq(|cutoffs|, i requires 0 <= i < |cutoffs| => At(cutoffs[i]));
    }

    /** `insert(0, 0)` then `append(inf)`. */
    method Pad()
      modifies this
      ensures bounds == [At(0.0)] + old(bounds) + [Unbounded]
    {
      bounds := [At(0.0)] + bounds;
      bounds := bounds + [Unbounded];
    }
  }

  /** The row with the entries whose column age lies outside `[lo, hi)` zeroed. */
  function MaskedRow(row: seq<real>, ages: seq<int>, lo: AgeBound, hi: AgeBound): (vs: seq<real>)
    requires |row| == |ages|
    ensures |vs| == |row|
  {
    seq(|row|, c requires 0 <= c < |row| => if InBand(ages[c], lo, hi) then row[c] else 0.0)
  }

  /** The sum of the row's entries whose column age lies in `[lo, hi)`, accumulated column by column. */
  function ClassTotal(row: seq<real>, ages: seq<int>, lo: AgeBound, hi: AgeBound): real
    requires |row| == |ages|
  {
    if row == [] then 0.0
    else
      var n := |row| - 1;
      ClassTotal(row[..n], ages[..n], lo, hi) + (if InBand(ages[n], lo, hi) then row[n] else 0.0)
  }

  /** The accumulated total is the sum of the masked row. */
  lemma {:induction false} ClassTotalIsMaskedSum(row: seq<real>, ages: seq<int>, lo: AgeBound, hi: AgeBound)
    requires |row| == |ages|
    ensures ClassTotal(row, ages, lo, hi) == Sum(MaskedRow(row, ages, lo, hi))
    decreases |row|
  {
    if row != [] {
      var n := |row| - 1;
      assert MaskedRow(row, ages, lo, hi)[..n] == MaskedRow(row[..n], ages[..n], lo, hi);
      ClassTotalIsMaskedSum(row[..n], ages[..n], lo, hi);
    }
  }

  /** One output row: the row's total in each class `[bounds[i], bounds[i + 1])`. */
  function ClassTotals(row: seq<real>, ages: seq<int>, bounds: seq<AgeBound>): (totals: seq<real>)
    requires |row| == |ages| && |bounds| >= 1
    ensures |totals| == |bounds| - 1
  {
    seq(|bounds| - 1, i requires 0 <= i < |bounds| - 1 => ClassTotal(row, ages, bounds[i], bounds[i + 1]))
  }

  /** 1.0 at each class whose band holds the age, 0.0 elsewhere. */
  function ClassIndicator(age: int, bounds: seq<AgeBound>): (ind: seq<real>)
    requires |bounds| >= 1
    ensures |ind| == |bounds| - 1
  {
    seq(|bounds| - 1, i requires 0 <= i < |bounds| - 1 => if InBand(age, bounds[i], bounds[i + 1]) then 1.0 else 0.0)
  }

  /** `pop[:, i] = values`: overwrites one column and leaves the others alone. */
  method SetColumn(a: array2<real>, i: nat, values: seq<real>)
    requires i < a.Length1 && |values| == a.Length0
    modifies a
    ensures forall r, k :: 0 <= r < a.Length0 && 0 <= k < a.Length1 ==>
              a[r, k] == if k == i then values[r] else old(a[r, k])
  {
    forall r | 0 <= r < a.Length0 {
      a[r, i] := values[r];
    }
  }

  /**
   * Bins the age columns of each row into the classes cut at the padded
   * cutoffs. The caller's cutoff list is padded in place with 0 at the
   * front and `+inf` at the end, so there is one class more than cutoffs.
   */
  method ProcessPopData(rows: seq<seq<real>>, ages: seq<int>, cutoffs: AgeCutoffs) returns (pop: array2<real>)
    requires forall r :: 0 <= r < |rows| ==> |rows[r]| == |ages|
    modifies cutoffs
    ensures cutoffs.bounds == [At(0.0)] + old(cutoffs.bounds) + [Unbounded]
    ensures fresh(pop)
    ensures pop.Length0 == |rows| && pop.Length1 == |old(cutoffs.bounds)| + 1
    ensures forall r, i :: 0 <= r < |rows| && 0 <= i < pop.Length1 ==>
              pop[r, i] == ClassTotal(rows[r], ages, cutoffs.bounds[i], cutoffs.bounds[i + 1])
  {
    cutoffs.Pad();
    var bounds := cutoffs.bounds;
    var numClasses := |bounds| - 1;
    pop := new real[|rows|, numClasses]((_, _) => 0.0);
    for i := 0 to numClasses
      modifies pop
      invariant forall r, k :: 0 <= r < |rows| && 0 <= k < i ==> pop[r, k] == ClassTotal(rows[r], ages, bounds[k], bounds[k + 1])
    {
      var column := seq(|rows|, r requires 0 <= r < |rows| => ClassTotal(rows[r], ages, bounds[i], bounds[i + 1]));
      SetColumn(pop, i, column);
    }
  }

  /** With non-negative entries, every class total is non-negative. */
  lemma {:induction false} ClassTotalNonNegative(row: seq<real>, ages: seq<int>, lo: AgeBound, hi: AgeBound)
    requires |row| == |ages|
    requires forall c :: 0 <= c < |row| ==> row[c] >= 0.0
    ensures ClassTotal(row, ages, lo, hi) >= 0.0
    decreases |row|
  {
    if row != [] {
      ClassTotalNonNegative(row[..|row| - 1], ages[..|row| - 1], lo, hi);
    }
  }

  lemma ClassTotalAppend(row: seq<real>, ages: seq<int>, v: real, age: int, lo: AgeBound, hi: AgeBound)
    requires |row| == |ages|
    ensures ClassTotal(row + [v], ages + [age], lo, hi) == ClassTotal(row, ages, lo, hi) + if InBand(age, lo, hi) then v else 0.0
  {
    assert (row + [v])[..|row|] == row;
    assert (ages + [age])[..|ages|] == ages;
  }

  /** Appending a column adds its value once to each class whose band holds its age. */
  lemma ClassTotalsAppendPointwise(row: seq<real>, ages: seq<int>, v: real, age: int, bounds: seq<AgeBound>)
    requires |row| == |ages| && |bounds| >= 1
    ensures ClassTotals(row + [v], ages + [age], bounds)
         == Plus(ClassTotals(row, ages, bounds), Scaled(v, ClassIndicator(age, bounds)))
  {
    var before, after := ClassTotals(row, ages, bounds), ClassTotals(row + [v], ages + [age], bounds);
    var added := Scaled(v, ClassIndicator(age, bounds));
    forall i | 0 <= i < |bounds| - 1 ensures after[i] == before[i] + added[i] {
      ClassTotalAppend(row, ages, v, age, bounds[i], bounds[i + 1]);
      if InBand(age, bounds[i], bounds[i + 1]) {
        assert added[i] == v * 1.0;
      } else {
        assert added[i] == v * 0.0;
      }
    }
  }

  lemma ClassTotalsAppend(row: seq<real>, ages: seq<int>, v: real, age: int, bounds: seq<AgeBound>)
    requires |row| == |ages| && |bounds| >= 1
    ensures Sum(ClassTotals(row + [v], ages + [age], bounds))
         == Sum(ClassTotals(row, ages, bounds)) + v * Sum(ClassIndicator(age, bounds))
  {
    ClassTotalsAppendPointwise(row, ages, v, age, bounds);
    SumPlusScaled(ClassTotals(row, ages, bounds), v, ClassIndicator(age, bounds));
  }

  /**
   * When every column age lies in exactly one class, the classes of a row
   * add up to the row's total.
   */
  lemma {:induction false} RowTotalPreserved(row: seq<real>, ages: seq<int>, bounds: seq<AgeBound>)
    requires |row| == |ages| && |bounds| >= 1
    requires forall c :: 0 <= c < |ages| ==> Sum(ClassIndicator(ages[c], bounds)) == 1.0
    ensures Sum(ClassTotals(row, ages, bounds)) == Sum(row)
    decreases |row|
  {
    if row == [] {
      SumConstant(ClassTotals(row, ages, bounds), 0.0);
    } else {
      var n := |row| - 1;
      assert row == row[..n] + [row[n]];
      assert ages == ages[..n] + [ages[n]];
      RowTotalPreserved(row[..n], ages[..n], bounds);
      ClassTotalsAppend(row[..n], ages[..n], row[n], ages[n], bounds);
    }
  }

  /** `a < b` on padded cutoffs, `+inf` above every finite age. */
  predicate BoundLess(a: AgeBound, b: AgeBound)
  {
    match (a, b)
    case (At(x), At(y)) => x < y
    case (At(_), Unbounded) => true
    case (Unbounded, _) => false
  }

  predicate StrictlyIncreasing(bounds: seq<AgeBound>)
  {
    forall i, j :: 0 <= i < j < |bounds| ==> BoundLess(bounds[i], bounds[j])
  }

  /** The padded list of increasing positive cutoffs is strictly increasing. */
  lemma PaddedCutoffsIncreasing(cutoffs: seq<real>)
    requires forall i :: 0 <= i < |cutoffs| ==> cutoffs[i] > 0.0
    requires forall i, j :: 0 <= i < j < |cutoffs| ==> cutoffs[i] < cutoffs[j]
    ensures StrictlyIncreasing([At(0.0)] + seq(|cutoffs|, i requires 0 <= i < |cutoffs| => At(cutoffs[i])) + [Unbounded])
  {
  }

  /** The last class at or below the age among the first `n` lower bounds. */
  function LastLowerBound(age: int, bounds: seq<AgeBound>, n: int): (i: int)
    requires 1 <= n <= |bounds| && AtLeast(age, bounds[0])
    ensures 0 <= i < n && AtLeast(age, bounds[i])
    ensures forall j :: i < j < n ==> !AtLeast(age, bounds[j])
  {
    if n == 1 || AtLeast(age, bounds[n - 1]) then n - 1 else LastLowerBound(age, bounds, n - 1)
  }

  /** An age below one bound is not at or above any bound that follows it. */
  lemma BelowThenNotAtLeast(age: int, bounds: seq<AgeBound>, i: int, j: int)
    requires StrictlyIncreasing(bounds)
    requires 0 <= i <= j < |bounds| && Below(age, bounds[i])
    ensures !AtLeast(age, bounds[j])
  {
    if i < j {
      assert BoundLess(bounds[i], bounds[j]);
    }
  }

  /** `xs` is 1.0 at `i` and 0.0 everywhere else. */
  lemma SumOfSingleOne(xs: seq<real>, i: int)
    requires 0 <= i < |xs| && xs[i] == 1.0
    requires forall k :: 0 <= k < |xs| && k != i ==> xs[k] == 0.0
    ensures Sum(xs) == 1.0
  {
    assert xs == xs[..i] + [xs[i]] + xs[i + 1..];
    SumConcat(xs[..i] + [xs[i]], xs[i + 1..]);
    SumConcat(xs[..i], [xs[i]]);
    SumConstant(xs[..i], 0.0);
    SumConstant(xs[i + 1..], 0.0);
    assert [xs[i]][..0] == [];
  }

  /**
   * With strictly increasing bounds that start at or below the age and end
   * at `+inf`, the age lies in exactly one class.
   */
  lemma ExactlyOneClass(age: int, bounds: seq<AgeBound>)
    requires |bounds| >= 2 && StrictlyIncreasing(bounds)
    requires AtLeast(age, bounds[0]) && bounds[|bounds| - 1] == Unbounded
    ensures Sum(ClassIndicator(age, bounds)) == 1.0
  {
    var n := |bounds| - 1;
    var i := LastLowerBound(age, bounds, n);
    assert Below(age, bounds[i + 1]) by {
      if i + 1 < n {
        assert !AtLeast(age, bounds[i + 1]);
      }
    }
    var ind := ClassIndicator(age, bounds);
    forall k | 0 <= k < n && k != i ensures ind[k] == 0.0 {
      if k < i {
        if Below(age, bounds[k + 1]) {
          BelowThenNotAtLeast(age, bounds, k + 1, i);
        }
      } else {
        BelowThenNotAtLeast(age, bounds, i + 1, k);
      }
    }
    SumOfSingleOne(ind, i);
  }

  /**
   * With increasing positive cutoffs and non-negative column ages, binning
   * keeps every row's total: each column lands in exactly one class.
   */
  lemma BinningPreservesRowTotals(row: seq<real>, ages: seq<int>, cutoffs: seq<real>)
    requires |row| == |ages|
    requires forall c :: 0 <= c < |ages| ==> ages[c] >= 0
    requires forall i :: 0 <= i < |cutoffs| ==> cutoffs[i] > 0.0
    requires forall i, j :: 0 <= i < j < |cutoffs| ==> cutoffs[i] < cutoffs[j]
    ensures var bounds := [At(0.0)] + seq(|cutoffs|, i requires 0 <= i < |cutoffs| => At(cutoffs[i])) + [Unbounded];
            Sum(ClassTotals(row, ages, bounds)) == Sum(row)
  {
    var bounds := [At(0.0)] + seq(|cutoffs|, i requires 0 <= i < |cutoffs| => At(cutoffs[i])) + [Unbounded];
    PaddedCutoffsIncreasing(cutoffs);
    forall c | 0 <= c < |ages| ensures Sum(ClassIndicator(ages[c], bounds)) == 1.0 {
      ExactlyOneClass(ages[c], bounds);
    }
    RowTotalPreserved(row, ages, bounds);
  }

  /** The total of each row. */
  function RowSums(m: seq<seq<real>>): (sums: seq<real>)
    ensures |sums| == |m|
  {
    seq(|m|, r requires 0 <= r < |m| => Sum(m[r]))
  }

  /** The sum of all entries of a matrix. */
  function MatrixSum(m: seq<seq<real>>): real
  {
    Sum(RowSums(m))
  }

  /** Every entry multiplied by `c` (`m * c` in numpy). */
  function MatrixScaled(c: real, m: seq<seq<real>>): (s: seq<seq<real>>)
    ensures |s| == |m| && forall r :: 0 <= r < |m| ==> |s[r]| == |m[r]|
  {
    seq(|m|, r requires 0 <= r < |m| => Scaled(c, m[r]))
  }

  predicate SameShape(a: seq<seq<real>>, b: seq<seq<real>>)
  {
    |a| == |b| && forall r :: 0 <= r < |a| ==> |a[r]| == |b[r]|
  }

  /** Element-wise difference of two matrices of the same shape. */
  function MatrixMinus(a: seq<seq<real>>, b: seq<seq<real>>): (d: seq<seq<real>>)
    requires SameShape(a, b)
    ensures SameShape(d, a)
  {
    seq(|a|, r requires 0 <= r < |a| => Minus(a[r], b[r]))
  }

  lemma MatrixSumScaled(c: real, m: seq<seq<real>>)
    ensures MatrixSum(MatrixScaled(c, m)) == c * MatrixSum(m)
  {
    forall r | 0 <= r < |m| ensures RowSums(MatrixScaled(c, m))[r] == Scaled(c, RowSums(m))[r] {
      SumScaled(c, m[r]);
    }
    assert RowSums(MatrixScaled(c, m)) == Scaled(c, RowSums(m));
    SumScaled(c, RowSums(m));
  }

  lemma MatrixSumMinus(a: seq<seq<real>>, b: seq<seq<real>>)
    requires SameShape(a, b)
    ensures MatrixSum(MatrixMinus(a, b)) == MatrixSum(a) - MatrixSum(b)
  {
    forall r | 0 <= r < |a| ensures RowSums(MatrixMinus(a, b))[r] == Minus(RowSums(a), RowSums(b))[r] {
      SumMinus(a[r], b[r]);
    }
    assert RowSums(MatrixMinus(a, b)) == Minus(RowSums(a), RowSums(b));
    SumMinus(RowSums(a), RowSums(b));
  }

  /**
   * `(pop - immunized_pop - active_cases).sum()`: the population still to
   * vaccinate, which is the total less the immunised and the active cases.
   */
  function Remaining(pop: seq<seq<real>>, immunizedPop: seq<seq<real>>, activeCases: seq<seq<real>>): real
    requires SameShape(pop, immunizedPop) && SameShape(pop, activeCases)
  {
    MatrixSum(MatrixMinus(MatrixMinus(pop, immunizedPop), activeCases))
  }

  /** The remaining population is the total less the immunised and the active cases. */
  lemma RemainingIsTotalLessImmuneAndActive(pop: seq<seq<real>>, immunizedPop: seq<seq<real>>, activeCases: seq<seq<real>>)
    requires SameShape(pop, immunizedPop) && SameShape(pop, activeCases)
    ensures Remaining(pop, immunizedPop, activeCases) == MatrixSum(pop) - MatrixSum(immunizedPop) - MatrixSum(activeCases)
  {
    MatrixSumMinus(pop, immunizedPop);
    MatrixSumMinus(MatrixMinus(pop, immunizedPop), activeCases);
  }

  /**
   * `set_budget_from_pop`: `n` equal timesteps, each a `budgetPct` share
   * of the remaining population. `n` stands for `round(1 / budgetPct)`.
   */
  function BudgetFromPop(n: nat, pop: seq<seq<real>>, immunizedPop: seq<seq<real>>, activeCases: seq<seq<real>>, budgetPct: real)
    : (budget: seq<real>)
    requires SameShape(pop, immunizedPop) && SameShape(pop, activeCases)
    ensures |budget| == n
    ensures forall t :: 0 <= t < n ==> budget[t] == Remaining(pop, immunizedPop, activeCases) * budgetPct
  {
    seq(n, _ => Remaining(pop, immunizedPop, activeCases) * budgetPct)
  }

  /** The schedule hands out `n * budgetPct` of the remaining population in total. */
  lemma BudgetFromPopTotal(n: nat, pop: seq<seq<real>>, immunizedPop: seq<seq<real>>, activeCases: seq<seq<real>>, budgetPct: real)
    requires SameShape(pop, immunizedPop) && SameShape(pop, activeCases)
    ensures Sum(BudgetFromPop(n, pop, immunizedPop, activeCases, budgetPct))
         == (n as real * budgetPct) * Remaining(pop, immunizedPop, activeCases)
  {
    SumOfShares(BudgetFromPop(n, pop, immunizedPop, activeCases, budgetPct), Remaining(pop, immunizedPop, activeCases), budgetPct);
  }

  /**
   * When `n * budgetPct == 1`, as when `1 / budgetPct` is a whole number,
   * the schedule hands out exactly the remaining population.
   */
  lemma {:induction false} BudgetFromPopHandsOutRemaining(n: nat, pop: seq<seq<real>>, immunizedPop: seq<seq<real>>, activeCases: seq<seq<real>>, budgetPct: real)
    requires SameShape(pop, immunizedPop) && SameShape(pop, activeCases)
    requires n as real * budgetPct == 1.0
    ensures Sum(BudgetFromPop(n, pop, immunizedPop, activeCases, budgetPct)) == Remaining(pop, immunizedPop, activeCases)
  {
    BudgetFromPopTotal(n, pop, immunizedPop, activeCases, budgetPct);
  }

  /** A schedule of equal shares `total * pct` adds up to `(|xs| * pct) * total`. */
  lemma SumOfShares(xs: seq<real>, total: real, pct: real)
    requires forall t :: 0 <= t < |xs| ==> xs[t] == total * pct
    ensures Sum(xs) == (|xs| as real * pct) * total
  {
    SumConstant(xs, total * pct);
    assert |xs| as real * (total * pct) == (|xs| as real * pct) * total;
  }

  /** The exclusive end of Python's `xs[:stop]` on a sequence of length `len`. */
  function SliceEnd(len: nat, stop: int): (e: nat)
    ensures e <= len
    ensures 0 <= stop <= len ==> e == stop
    ensures stop > len ==> e == len
    ensures stop < 0 && len + stop >= 0 ==> len - e == -stop
    ensures len + stop < 0 ==> e == 0
  {
    if stop >= 0 then (if stop <= len then stop else len)
    else if len + stop >= 0 then len + stop else 0
  }

  /** `xs[:maxRegions]` when `maxRegions` is truthy (present and non-zero), `xs` otherwise. */
  function KeepRegions<T>(xs: seq<T>, maxRegions: Option<int>): (kept: seq<T>)
    ensures kept <= xs
  {
    if maxRegions.Some? && maxRegions.value != 0 then xs[..SliceEnd(|xs|, maxRegions.value)] else xs
  }

  /** A positive limit keeps exactly the first `min(limit, len)` regions; no limit keeps them all. */
  lemma KeepRegionsCount<T>(xs: seq<T>, maxRegions: Option<int>)
    ensures maxRegions.Some? && maxRegions.value > 0 ==>
              |KeepRegions(xs, maxRegions)| == if maxRegions.value <= |xs| then maxRegions.value else |xs|
    ensures maxRegions.Some? && maxRegions.value < 0 ==>
              |KeepRegions(xs, maxRegions)| == if |xs| + maxRegions.value >= 0 then |xs| + maxRegions.value else 0
    ensures maxRegions.None? || maxRegions.value == 0 ==> KeepRegions(xs, maxRegions) == xs
  {
  }

  /** Two tables of the same length keep the same number of regions. */
  lemma KeepRegionsAligned<T, U>(xs: seq<T>, ys: seq<U>, maxRegions: Option<int>)
    requires |xs| == |ys|
    ensures |KeepRegions(xs, maxRegions)| == |KeepRegions(ys, maxRegions)|
  {
  }

  /** The rows of a matrix held in an array. */
  function Rows(a: array2<real>): (m: seq<seq<real>>)
    reads a
    ensures |m| == a.Length0 && forall r :: 0 <= r < a.Length0 ==> |m[r]| == a.Length1
  {
    seq(a.Length0, r requires 0 <= r < a.Length0 reads a =>
      seq(a.Length1, c requires 0 <= c < a.Length1 reads a => a[r, c]))
  }

  /**
   * `pop /= unit`, in place. A zero unit makes numpy fill the array with
   * NaN/inf, which a `real` cell cannot hold: the method then reports that
   * it did not divide and leaves the array alone.
   */
  method DivideInPlace(pop: array2<real>, unit: real) returns (divided: bool)
    modifies pop
    ensures divided <==> unit != 0.0
    ensures divided ==> forall r, c :: 0 <= r < pop.Length0 && 0 <= c < pop.Length1 ==> pop[r, c] == old(pop[r, c]) / unit
    ensures !divided ==> unchanged(pop)
  {
    if unit == 0.0 {
      return false;
    }
    forall r, c | 0 <= r < pop.Length0 && 0 <= c < pop.Length1 {
      pop[r, c] := pop[r, c] / unit;
    }
    divided := true;
  }

  /** `budget[0] = 0` on a fresh array holding the schedule. */
  method ZeroFirstTimestep(schedule: seq<real>) returns (budget: array<real>)
    requires |schedule| >= 1
    ensures fresh(budget) && budget[..] == schedule[0 := 0.0]
  {
    budget := new real[|schedule|](t requires 0 <= t < |schedule| => schedule[t]);
    budget[0] := 0.0;
    assert forall t :: 0 <= t < |schedule| ==> budget[t] == schedule[0 := 0.0][t];
  }

  /**
   * The toy instance: the binned population in `unit`s, truncated to the
   * first regions when `maxRegions` is truthy, fixed immune and active
   * fractions, a budget schedule whose first timestep is zero, and the
   * morbidity rates repeated for every region. The reproduction factors
   * come from a density model that is not part of this model.
   */
  method GetToyDataFromCensusData(
    pop: array2<real>, repFactor: seq<real>,
    pctImmune: real, pctActiveCases: real, pctBudget: real, nBudget: nat,
    morbidityRate: seq<real>, unit: real, maxRegions: Option<int>)
    returns (popOut: seq<seq<real>>, immunizedPop: seq<seq<real>>, activeCases: seq<seq<real>>,
             repOut: seq<real>, morbidity: seq<seq<real>>, budget: array<real>)
    requires unit != 0.0
    requires nBudget >= 1
    modifies pop
    ensures forall r, c :: 0 <= r < pop.Length0 && 0 <= c < pop.Length1 ==> pop[r, c] == old(pop[r, c]) / unit
    ensures popOut == KeepRegions(Rows(pop), maxRegions) && repOut == KeepRegions(repFactor, maxRegions)
    ensures immunizedPop == MatrixScaled(pctImmune, popOut) && activeCases == MatrixScaled(pctActiveCases, popOut)
    ensures fresh(budget) && budget.Length == nBudget
    ensures budget[..] == BudgetFromPop(nBudget, popOut, immunizedPop, activeCases, pctBudget)[0 := 0.0]
    ensures |morbidity| == |popOut| && forall r :: 0 <= r < |morbidity| ==> morbidity[r] == morbidityRate
  {
    var divided := DivideInPlace(pop, unit);
    popOut := KeepRegions(Rows(pop), maxRegions);
    repOut := KeepRegions(repFactor, maxRegions);
    immunizedPop := MatrixScaled(pctImmune, popOut);
    activeCases := MatrixScaled(pctActiveCases, popOut);
    budget := ZeroFirstTimestep(BudgetFromPop(nBudget, popOut, immunizedPop, activeCases, pctBudget));
    morbidity := seq(|popOut|, _ => morbidityRate);
  }

  /**
   * With immune and active fractions of the population, the remaining
   * population is the rest of it: `(1 - pctImmune - pctActiveCases)` of
   * the total.
   */
  lemma ToyRemainingPopulation(pop: seq<seq<real>>, pctImmune: real, pctActiveCases: real)
    ensures Remaining(pop, MatrixScaled(pctImmune, pop), MatrixScaled(pctActiveCases, pop))
         == (1.0 - pctImmune - pctActiveCases) * MatrixSum(pop)
  {
    RemainingIsTotalLessImmuneAndActive(pop, MatrixScaled(pctImmune, pop), MatrixScaled(pctActiveCases, pop));
    MatrixSumScaled(pctImmune, pop);
    MatrixSumScaled(pctActiveCases, pop);
  }
}
