/**
 * Shared numeric vocabulary for the parameter pipeline.
 *
 * The pipeline computes with numpy float64 values. The model uses exact
 * `real` arithmetic, and keeps the one float behaviour the pipeline
 * relies on: a division by zero produces NaN or an infinity instead of
 * raising, represented here by `NonFinite`.
 */
module Numerics {

  /** A numpy float64 as the pipeline produces it: an exact finite value, or NaN/inf. */
  datatype Float = Finite(value: real) | NonFinite

  /** Python's `None` or a value. */
  datatype Option<T> = None | Some(value: T)

  /** numpy division `num / den`: finite unless the denominator is zero. */
  function Divide(num: real, den: real): (q: Float)
    ensures q.Finite? <==> den != 0.0
    ensures q.Finite? ==> q.value * den == num
  {
    if den == 0.0 then NonFinite else Finite(num / den)
  }

  /** Sum of a sequence, peeled from the back so that a prefix extends by one term. */
  function Sum(xs: seq<real>): real
  {
    if xs == [] then 0.0 else Sum(xs[..|xs| - 1]) + xs[|xs| - 1]
  }

  /** Element-wise sum of two sequences of the same length. */
  function Plus(xs: seq<real>, ys: seq<real>): (zs: seq<real>)
    requires |xs| == |ys|
    ensures |zs| == |xs|
  {
    seq(|xs|, i requires 0 <= i < |xs| => xs[i] + ys[i])
  }

  /** Element-wise difference of two sequences of the same length. */
  function Minus(xs: seq<real>, ys: seq<real>): (zs: seq<real>)
    requires |xs| == |ys|
    ensures |zs| == |xs|
  {
    seq(|xs|, i requires 0 <= i < |xs| => xs[i] - ys[i])
  }

  /** Every element multiplied by `c`. */
  function Scaled(c: real, xs: seq<real>): (zs: seq<real>)
    ensures |zs| == |xs|
  {
    seq(|xs|, i requires 0 <= i < |xs| => c * xs[i])
  }

  lemma {:induction false} SumConcat(xs: seq<real>, ys: seq<real>)
    ensures Sum(xs + ys) == Sum(xs) + Sum(ys)
    decreases |ys|
  {
    if ys == [] {
      assert xs + ys == xs;
    } else {
      var n := |ys| - 1;
      assert (xs + ys)[..|xs + ys| - 1] == xs + ys[..n];
      SumConcat(xs, ys[..n]);
    }
  }

  lemma {:induction false} SumPlus(xs: seq<real>, ys: seq<real>)
    requires |xs| == |ys|
    ensures Sum(Plus(xs, ys)) == Sum(xs) + Sum(ys)
    decreases |xs|
  {
    if xs != [] {
      var n := |xs| - 1;
      assert Plus(xs, ys)[..n] == Plus(xs[..n], ys[..n]);
      SumPlus(xs[..n], ys[..n]);
    }
  }

  lemma {:induction false} SumMinus(xs: seq<real>, ys: seq<real>)
    requires |xs| == |ys|
    ensures Sum(Minus(xs, ys)) == Sum(xs) - Sum(ys)
    decreases |xs|
  {
    if xs != [] {
      var n := |xs| - 1;
      assert Minus(xs, ys)[..n] == Minus(xs[..n], ys[..n]);
      SumMinus(xs[..n], ys[..n]);
    }
  }

  lemma {:induction false} SumScaled(c: real, xs: seq<real>)
    ensures Sum(Scaled(c, xs)) == c * Sum(xs)
    decreases |xs|
  {
    if xs != [] {
      var n := |xs| - 1;
      forall i | 0 <= i < n ensures Scaled(c, xs)[..n][i] == Scaled(c, xs[..n])[i] {
        assert xs[..n][i] == xs[i];
      }
      assert Scaled(c, xs)[..n] == Scaled(c, xs[..n]);
      SumScaled(c, xs[..n]);
      assert c * Sum(xs) == c * Sum(xs[..n]) + c * xs[n];
    }
  }

  /** Adding a scaled sequence adds the scaled sum. */
  lemma {:induction false} SumPlusScaled(xs: seq<real>, w: real, ys: seq<real>)
    requires |xs| == |ys|
    ensures Sum(Plus(xs, Scaled(w, ys))) == Sum(xs) + w * Sum(ys)
  {
    SumPlus(xs, Scaled(w, ys));
    SumScaled(w, ys);
  }

  lemma {:induction false} SumNonNegative(xs: seq<real>)
    requires forall i :: 0 <= i < |xs| ==> xs[i] >= 0.0
    ensures Sum(xs) >= 0.0
    decreases |xs|
  {
    if xs != [] {
      SumNonNegative(xs[..|xs| - 1]);
    }
  }

  /** A sequence of `n` copies of `c` sums to `n * c`. */
  lemma {:induction false} SumConstant(xs: seq<real>, c: real)
    requires forall i :: 0 <= i < |xs| ==> xs[i] == c
    ensures Sum(xs) == |xs| as real * c
    decreases |xs|
  {
    if xs != [] {
      var n := |xs| - 1;
      SumConstant(xs[..n], c);
      assert |xs| as real * c == n as real * c + c;
    }
  }

  /** A non-negative numerator no larger than a positive denominator gives a ratio in [0, 1]. */
  lemma RatioIsProbability(num: real, den: real)
    requires 0.0 <= num <= den && den > 0.0
    ensures 0.0 <= num / den <= 1.0
  {
    var q := num / den;
    assert q * den == num;
  }
}
