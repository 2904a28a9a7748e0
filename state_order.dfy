/**
 * Ordering trajectory rows by state name (pandas `sort_values("state")`).
 *
 * Python compares strings lexicographically by code point; `StrLeq` is
 * that order, proved total and transitive. The sort is proved to give what
 * pandas promises: the result is ordered by state and is a permutation of
 * its input. pandas' default sort promises no order among rows with equal
 * states; the insertion sort here fixes one, putting each row before the
 * later rows of the same state (the stable order).
 */
module StateOrder {
  import opened MortalityIncrements

  /** Python's `a <= b` on strings: lexicographic by code point, a prefix first. */
  predicate StrLeq(a: string, b: string)
    ensures a <= b ==> StrLeq(a, b)
    decreases |a|
  {
    a == [] || (b != [] && (a[0] < b[0] || (a[0] == b[0] && StrLeq(a[1..], b[1..]))))
  }

  lemma {:induction false} StrLeqAntisymmetric(a: string, b: string)
    requires StrLeq(a, b) && StrLeq(b, a)
    ensures a == b
    decreases |a|
  {
    if a != [] {
      StrLeqAntisymmetric(a[1..], b[1..]);
      assert a == [a[0]] + a[1..] && b == [b[0]] + b[1..];
    }
  }

  lemma {:induction false} StrLeqTotal(a: string, b: string)
    ensures StrLeq(a, b) || StrLeq(b, a)
    decreases |a|
  {
    if a != [] && b != [] && a[0] == b[0] {
      StrLeqTotal(a[1..], b[1..]);
    }
  }

  lemma {:induction false} StrLeqTransitive(a: string, b: string, c: string)
    requires StrLeq(a, b) && StrLeq(b, c)
    ensures StrLeq(a, c)
    decreases |a|
  {
    if a != [] && a[0] == b[0] && b[0] == c[0] {
      StrLeqTransitive(a[1..], b[1..], c[1..]);
    }
  }

  /** Rows in non-decreasing order of state name. */
  predicate SortedByState(s: seq<TrajectoryRow>)
  {
    forall i, j :: 0 <= i < j < |s| ==> StrLeq(s[i].state, s[j].state)
  }

  /** A row at or below the head of a sorted sequence is at or below all of it. */
  lemma BelowHeadBelowAll(x: TrajectoryRow, s: seq<TrajectoryRow>)
    requires SortedByState(s) && s != [] && StrLeq(x.state, s[0].state)
    ensures forall j :: 0 <= j < |s| ==> StrLeq(x.state, s[j].state)
  {
    forall j | 0 < j < |s| ensures StrLeq(x.state, s[j].state) {
      StrLeqTransitive(x.state, s[0].state, s[j].state);
    }
  }

  /** A row at or below every row of `s` and `x` is at or below every row of a permutation of them. */
  lemma BelowAllOfPermutation(h: TrajectoryRow, x: TrajectoryRow, s: seq<TrajectoryRow>, rest: seq<TrajectoryRow>)
    requires forall i :: 0 <= i < |s| ==> StrLeq(h.state, s[i].state)
    requires StrLeq(h.state, x.state)
    requires multiset(rest) == multiset(s) + multiset{x}
    ensures forall j :: 0 <= j < |rest| ==> StrLeq(h.state, rest[j].state)
  {
    forall j | 0 <= j < |rest| ensures StrLeq(h.state, rest[j].state) {
      assert rest[j] in multiset(rest);
      if rest[j] != x {
        assert rest[j] in multiset(s);
        var i :| 0 <= i < |s| && s[i] == rest[j];
      }
    }
  }

  /** Inserts a row before the first row whose state is not below its own. */
  function InsertByState(x: TrajectoryRow, s: seq<TrajectoryRow>): (r: seq<TrajectoryRow>)
    ensures multiset(r) == multiset(s) + multiset{x}
  {
    if s == [] then [x]
    else if StrLeq(x.state, s[0].state) then [x] + s
    else
      assert s == [s[0]] + s[1..];
      [s[0]] + InsertByState(x, s[1..])
  }

  /** Inserting into a sorted sequence keeps it sorted. */
  lemma {:induction false} InsertByStateSorted(x: TrajectoryRow, s: seq<TrajectoryRow>)
    requires SortedByState(s)
    ensures SortedByState(InsertByState(x, s))
    decreases |s|
  {
    if s == [] {
    } else if StrLeq(x.state, s[0].state) {
      BelowHeadBelowAll(x, s);
    } else {
      StrLeqTotal(x.state, s[0].state);
      var rest := InsertByState(x, s[1..]);
      InsertByStateSorted(x, s[1..]);
      BelowAllOfPermutation(s[0], x, s[1..], rest);
    }
  }

  /** `sort_values("state")`: the rows ordered by state, a permutation of the input. */
  function SortByState(s: seq<TrajectoryRow>): (r: seq<TrajectoryRow>)
    ensures multiset(r) == multiset(s)
    ensures |r| == |s|
    ensures SortedByState(r)
  {
    if s == [] then []
    else
      assert s == [s[0]] + s[1..];
      var sorted := SortByState(s[1..]);
      InsertByStateSorted(s[0], sorted);
      InsertByState(s[0], sorted)
  }
}
