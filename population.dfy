/**
 * Risk-class population aggregation: the population table, one row per
 * (state, age band), collapsed into a region x risk-class matrix.
 *
 * A row counts towards a risk class only when its whole age band lies
 * inside the class (`WithinClass`); a band that straddles a class
 * boundary counts towards no class. The clinical-rate aggregation uses
 * the same predicate.
 */
module Population {
  import opened Numerics

  /** An age band `[minAge, maxAge]`, both ends inclusive. */
  datatype RiskClass = RiskClass(minAge: int, maxAge: int)

  /** One row of the population table. */
  datatype PopRow = PopRow(state: string, minAge: int, maxAge: int, population: real)

  /** The age lies inside the class. */
  predicate AgeInClass(age: int, c: RiskClass)
  {
    c.minAge <= age <= c.maxAge
  }

  /**
   * The shared sub-band containment test, written as two comparisons of
   * the band's ends with the class's; for a non-empty band it holds
   * exactly when every age of the band lies inside the class.
   */
  predicate WithinClass(minAge: int, maxAge: int, c: RiskClass)
    ensures minAge <= maxAge ==>
              (WithinClass(minAge, maxAge, c) <==> forall age :: minAge <= age <= maxAge ==> AgeInClass(age, c))
  {
    assert minAge <= maxAge ==> (AgeInClass(minAge, c) && AgeInClass(maxAge, c) <==> minAge >= c.minAge && maxAge <= c.maxAge);
    minAge >= c.minAge && maxAge <= c.maxAge
  }

  /** The `state` column of the table. */
  function StateColumn(rows: seq<PopRow>): (col: seq<string>)
    ensures |col| == |rows|
    ensures forall i :: 0 <= i < |rows| ==> col[i] == rows[i].state
  {
    seq(|rows|, i requires 0 <= i < |rows| => rows[i].state)
  }

  /** pandas `unique()`: the distinct values, in order of first appearance. */
  function UniqueInOrder(xs: seq<string>): (u: seq<string>)
    ensures forall i, j :: 0 <= i < j < |u| ==> u[i] != u[j]
    ensures forall x :: x in u <==> x in xs
    ensures |u| <= |xs|
  {
    if xs == [] then []
    else
      var u0 := UniqueInOrder(xs[..|xs| - 1]);
      var x := xs[|xs| - 1];
      assert forall y :: y in xs <==> y in xs[..|xs| - 1] || y == x by {
        assert xs == xs[..|xs| - 1] + [x];
      }
      if x in u0 then u0 else u0 + [x]
  }

  /** Every occurrence of the `j`-th distinct value is preceded by an occurrence of the `i`-th, for `i < j`. */
  lemma {:induction false} UniqueInOrderFirstAppearance(xs: seq<string>, i: int, j: int, q: int)
    requires 0 <= i < j < |UniqueInOrder(xs)|
    requires 0 <= q < |xs| && xs[q] == UniqueInOrder(xs)[j]
    ensures UniqueInOrder(xs)[i] in xs[..q]
    decreases |xs|
  {
    var n := |xs| - 1;
    var pre := xs[..n];
    var u0 := UniqueInOrder(pre);
    var u := UniqueInOrder(xs);
    assert xs[..q] == pre[..q] by {
      if q < n { assert pre[..q] == xs[..q]; }
    }
    if xs[n] in u0 {
      assert u == u0;
      if q < n {
        UniqueInOrderFirstAppearance(pre, i, j, q);
      } else {
        // the last row repeats an earlier state: use that earlier occurrence
        var q' :| 0 <= q' < n && pre[q'] == xs[n];
        UniqueInOrderFirstAppearance(pre, i, j, q');
        assert pre[..q'] <= xs[..q];
      }
    } else {
      assert u == u0 + [xs[n]];
      if j == |u0| {
        assert xs[n] !in pre;
        if q < n {
          assert false;
        }
        assert u[i] == u0[i] && u0[i] in pre;
      } else {
        assert u[j] == u0[j] && u[i] == u0[i];
        if q == n {
          assert false;
        }
        assert pre[q] == u0[j];
        UniqueInOrderFirstAppearance(pre, i, j, q);
      }
    }
  }

  /** The regions of the table: its distinct states in order of first appearance. */
  function Regions(rows: seq<PopRow>): (states: seq<string>)
    ensures forall i, j :: 0 <= i < j < |states| ==> states[i] != states[j]
    ensures forall s :: s in states <==> exists i :: 0 <= i < |rows| && rows[i].state == s
  {
    assert forall s :: s in StateColumn(rows) <==> exists i :: 0 <= i < |rows| && rows[i].state == s by {
      forall s | s in StateColumn(rows) ensures exists i :: 0 <= i < |rows| && rows[i].state == s {
        var i :| 0 <= i < |rows| && StateColumn(rows)[i] == s;
      }
    }
    UniqueInOrder(StateColumn(rows))
  }

  /** The population column with the rows outside the mask (`state` and band within `c`) zeroed. */
  function MaskedPopulations(rows: seq<PopRow>, state: string, c: RiskClass): (col: seq<real>)
    ensures |col| == |rows|
  {
    seq(|rows|, i requires 0 <= i < |rows| =>
      if rows[i].state == state && WithinClass(rows[i].minAge, rows[i].maxAge, c) then rows[i].population else 0.0)
  }

  /**
   * The masked sum, accumulated row by row: the population over rows of
   * `state` whose band lies within `c`.
   */
  function ClassPopulation(rows: seq<PopRow>, state: string, c: RiskClass): real
  {
    if rows == [] then 0.0
    else
      var r := rows[|rows| - 1];
      ClassPopulation(rows[..|rows| - 1], state, c)
        + (if r.state == state && WithinClass(r.minAge, r.maxAge, c) then r.population else 0.0)
  }

  /** The accumulated population is the sum of the masked column. */
  lemma {:induction false} ClassPopulationIsMaskedSum(rows: seq<PopRow>, state: string, c: RiskClass)
    ensures ClassPopulation(rows, state, c) == Sum(MaskedPopulations(rows, state, c))
    decreases |rows|
  {
    if rows != [] {
      var n := |rows| - 1;
      assert MaskedPopulations(rows, state, c)[..n] == MaskedPopulations(rows[..n], state, c);
      ClassPopulationIsMaskedSum(rows[..n], state, c);
    }
  }

  /** One row of the population matrix: the region's population in each risk class. */
  function ClassPopulations(rows: seq<PopRow>, state: string, classes: seq<RiskClass>): (ps: seq<real>)
    ensures |ps| == |classes|
  {
    seq(|classes|, k requires 0 <= k < |classes| => ClassPopulation(rows, state, classes[k]))
  }

  /** The region's total population over all its rows, whatever their age band. */
  function StatePopulation(rows: seq<PopRow>, state: string): real
  {
    if rows == [] then 0.0
    else
      var r := rows[|rows| - 1];
      StatePopulation(rows[..|rows| - 1], state) + (if r.state == state then r.population else 0.0)
  }

  /** 1.0 at each class that contains the row's band, 0.0 elsewhere; its sum counts those classes. */
  function ContainingClasses(r: PopRow, classes: seq<RiskClass>): (ind: seq<real>)
    ensures |ind| == |classes|
  {
    seq(|classes|, k requires 0 <= k < |classes| => if WithinClass(r.minAge, r.maxAge, classes[k]) then 1.0 else 0.0)
  }

  /**
   * Builds the region x risk-class population matrix with nested loops
   * over a zero-initialised array. Cell (j, k) is the population of the
   * rows of region j whose band lies within class k.
   */
  method PopulationByStateAndRiskClass(rows: seq<PopRow>, classes: seq<RiskClass>)
    returns (states: seq<string>, population: array2<real>)
    ensures states == Regions(rows)
    ensures fresh(population)
    ensures population.Length0 == |states| && population.Length1 == |classes|
    ensures forall j, k :: 0 <= j < |states| && 0 <= k < |classes| ==>
              population[j, k] == ClassPopulation(rows, states[j], classes[k])
  {
    states := Regions(rows);
    population := new real[|states|, |classes|]((_, _) => 0.0);
    for j := 0 to |states|
      invariant forall j', k :: 0 <= j' < j && 0 <= k < |classes| ==>
                  population[j', k] == ClassPopulation(rows, states[j'], classes[k])
    {
      for k := 0 to |classes|
        invariant forall j', k' :: 0 <= j' < j && 0 <= k' < |classes| ==>
                    population[j', k'] == ClassPopulation(rows, states[j'], classes[k'])
        invariant forall k' :: 0 <= k' < k ==> population[j, k'] == ClassPopulation(rows, states[j], classes[k'])
      {
        population[j, k] := ClassPopulation(rows, states[j], classes[k]);
      }
    }
  }

  /** The masked sum is additive over concatenated tables. */
  lemma {:induction false} ClassPopulationConcat(a: seq<PopRow>, b: seq<PopRow>, state: string, c: RiskClass)
    ensures ClassPopulation(a + b, state, c) == ClassPopulation(a, state, c) + ClassPopulation(b, state, c)
    decreases |b|
  {
    if b == [] {
      assert a + b == a;
    } else {
      var n := |b| - 1;
      assert (a + b)[..|a + b| - 1] == a + b[..n];
      ClassPopulationConcat(a, b[..n], state, c);
    }
  }

  /** A row whose band straddles the class boundary changes no cell of that class, wherever it sits in the table. */
  lemma StraddlingRowIgnored(a: seq<PopRow>, r: PopRow, b: seq<PopRow>, state: string, c: RiskClass)
    requires !WithinClass(r.minAge, r.maxAge, c)
    ensures ClassPopulation(a + [r] + b, state, c) == ClassPopulation(a + b, state, c)
  {
    ClassPopulationConcat(a + [r], b, state, c);
    ClassPopulationConcat(a, b, state, c);
    ClassPopulationConcat(a, [r], state, c);
    assert [r][..0] == [];
  }

  /** With non-negative populations, every cell is non-negative. */
  lemma {:induction false} ClassPopulationNonNegative(rows: seq<PopRow>, state: string, c: RiskClass)
    requires forall i :: 0 <= i < |rows| ==> rows[i].population >= 0.0
    ensures ClassPopulation(rows, state, c) >= 0.0
    decreases |rows|
  {
    if rows != [] {
      ClassPopulationNonNegative(rows[..|rows| - 1], state, c);
    }
  }

  lemma ClassPopulationsAppendPointwise(rows: seq<PopRow>, r: PopRow, state: string, classes: seq<RiskClass>)
    ensures ClassPopulations(rows + [r], state, classes)
         == Plus(ClassPopulations(rows, state, classes),
                 Scaled(if r.state == state then r.population else 0.0, ContainingClasses(r, classes)))
  {
    var w := if r.state == state then r.population else 0.0;
    var before, after := ClassPopulations(rows, state, classes), ClassPopulations(rows + [r], state, classes);
    var added := Scaled(w, ContainingClasses(r, classes));
    forall k | 0 <= k < |classes| ensures after[k] == before[k] + added[k] {
      assert (rows + [r])[..|rows|] == rows;
      if WithinClass(r.minAge, r.maxAge, classes[k]) {
        assert added[k] == w * 1.0;
      } else {
        assert added[k] == w * 0.0;
      }
    }
  }

  /** Appending a row adds its population once for each class containing its band. */
  lemma ClassPopulationsAppend(rows: seq<PopRow>, r: PopRow, state: string, classes: seq<RiskClass>)
    ensures Sum(ClassPopulations(rows + [r], state, classes))
         == Sum(ClassPopulations(rows, state, classes))
            + (if r.state == state then r.population else 0.0) * Sum(ContainingClasses(r, classes))
  {
    var w := if r.state == state then r.population else 0.0;
    ClassPopulationsAppendPointwise(rows, r, state, classes);
    SumPlusScaled(ClassPopulations(rows, state, classes), w, ContainingClasses(r, classes));
  }

  lemma ClassPopulationsEmpty(state: string, classes: seq<RiskClass>)
    ensures Sum(ClassPopulations([], state, classes)) == 0.0
  {
    SumConstant(ClassPopulations([], state, classes), 0.0);
  }

  /**
   * When every row of the region lies within exactly one class (the
   * classes partition the region's bands), the region's row of the
   * matrix sums to its total population.
   */
  lemma {:induction false} RegionTotalWhenClassesPartition(rows: seq<PopRow>, state: string, classes: seq<RiskClass>)
    requires forall i :: 0 <= i < |rows| && rows[i].state == state ==> Sum(ContainingClasses(rows[i], classes)) == 1.0
    ensures Sum(ClassPopulations(rows, state, classes)) == StatePopulation(rows, state)
    decreases |rows|
  {
    if rows == [] {
      ClassPopulationsEmpty(state, classes);
    } else {
      var n := |rows| - 1;
      var pre := rows[..n];
      assert rows == pre + [rows[n]];
      RegionTotalWhenClassesPartition(pre, state, classes);
      ClassPopulationsAppend(pre, rows[n], state, classes);
    }
  }

  /**
   * When no row lies within two classes and populations are non-negative,
   * the region's row of the matrix sums to at most its total population.
   */
  lemma {:induction false} RegionTotalAtMostStatePopulation(rows: seq<PopRow>, state: string, classes: seq<RiskClass>)
    requires forall i :: 0 <= i < |rows| ==> rows[i].population >= 0.0
    requires forall i :: 0 <= i < |rows| && rows[i].state == state ==> Sum(ContainingClasses(rows[i], classes)) <= 1.0
    ensures Sum(ClassPopulations(rows, state, classes)) <= StatePopulation(rows, state)
    decreases |rows|
  {
    if rows == [] {
      ClassPopulationsEmpty(state, classes);
    } else {
      var n := |rows| - 1;
      var pre := rows[..n];
      var r := rows[n];
      assert rows == pre + [r];
      RegionTotalAtMostStatePopulation(pre, state, classes);
      ClassPopulationsAppend(pre, r, state, classes);
      var count := Sum(ContainingClasses(r, classes));
      SumNonNegative(ContainingClasses(r, classes));
      if r.state == state {
        assert r.population * count <= r.population;
        assert StatePopulation(rows, state) == StatePopulation(pre, state) + r.population;
      } else {
        assert StatePopulation(rows, state) == StatePopulation(pre, state);
      }
    }
  }
}
