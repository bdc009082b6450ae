/**
 * `_zscore` of src/scoring.py: a peer z-score over one column of a batch, ignoring
 * NaN entries, with a guard that returns all zeros for a column without spread.
 * numpy's square root is a parameter `sqrt`; IsSqrt says when it is a true square root.
 */
module ZScores {
  import opened Frames
  import opened Stats

  /** The standard-deviation threshold below which a column counts as flat (1e-12). */
  const SpreadGuard: real := 0.000000000001

  /** `sqrt` returns the non-negative square root of every non-negative real. */
  ghost predicate IsSqrt(sqrt: real -> real)
  {
    forall v :: v >= 0.0 ==> sqrt(v) >= 0.0 && sqrt(v) * sqrt(v) == v
  }

  /** One entry standardised: `(x - mu) / sd`, NaN staying NaN. */
  function Standard(v: Value, mu: real, sd: real): Value
    requires sd != 0.0
  {
    if v.Val? then Val((v.x - mu) / sd) else NaN
  }

  function Standardized(col: seq<Value>, mu: real, sd: real): (z: seq<Value>)
    requires sd != 0.0
    ensures |z| == |col|
    ensures forall i :: 0 <= i < |col| ==> z[i] == Standard(col[i], mu, sd)
  {
    seq(|col|, i requires 0 <= i < |col| => Standard(col[i], mu, sd))
  }

  /** `np.zeros_like(col)`: a zero for every entry, NaN entries included. */
  function Zeros(n: nat): (z: seq<Value>)
    ensures |z| == n
    ensures forall i :: 0 <= i < n ==> z[i] == Val(0.0)
  {
    if n == 0 then [] else [Val(0.0)] + Zeros(n - 1)
  }

  /**
   * `_zscore(col)`. With no defined entry, numpy's nanmean and nanstd are NaN, the
   * guard `NaN < 1e-12` is false and every entry stays NaN. With a standard deviation
   * below 1e-12 every entry is 0. Otherwise each defined entry becomes `(x - mean) / sd`.
   */
  function ZScore(col: seq<Value>, sqrt: real -> real): (z: seq<Value>)
    ensures |z| == |col|
    ensures forall i :: 0 <= i < |col| && col[i].Val? ==> z[i].Val?
  {
    var vs := Defined(col);
    if |vs| == 0 then col
    else
      var sd := sqrt(PopulationVariance(vs));
      if sd < SpreadGuard then Zeros(|col|)
      else Standardized(col, Mean(vs), sd)
  }

  /** With a standard deviation below 1e-12 every entry, including NaN ones, scores 0. */
  lemma ZScoreOfFlatColumn(col: seq<Value>, sqrt: real -> real)
    requires |Defined(col)| > 0 && sqrt(PopulationVariance(Defined(col))) < SpreadGuard
    ensures forall i :: 0 <= i < |col| ==> ZScore(col, sqrt)[i] == Val(0.0)
  {
  }

  /** `z` is `col` standardised by `mu` and `sd`: same NaN pattern, and `z * sd == x - mu` for each defined x. */
  ghost predicate Standardizes(z: seq<Value>, col: seq<Value>, mu: real, sd: real)
  {
    |z| == |col| &&
    forall i :: 0 <= i < |col| ==>
      (z[i].Val? <==> col[i].Val?) && (col[i].Val? ==> z[i].x * sd == col[i].x - mu)
  }

  /** Otherwise a defined entry x maps to a z with `z * sd == x - mean`, and NaN stays NaN. */
  lemma ZScoreOfSpreadColumn(col: seq<Value>, sqrt: real -> real)
    requires |Defined(col)| > 0 && sqrt(PopulationVariance(Defined(col))) >= SpreadGuard
    ensures Standardizes(ZScore(col, sqrt), col, Mean(Defined(col)), sqrt(PopulationVariance(Defined(col))))
  {
    var sd := sqrt(PopulationVariance(Defined(col)));
    var mu := Mean(Defined(col));
    assert ZScore(col, sqrt) == Standardized(col, mu, sd);
    StandardizedMeetsSpec(col, mu, sd);
  }

  lemma StandardizedMeetsSpec(col: seq<Value>, mu: real, sd: real)
    requires sd != 0.0
    ensures Standardizes(Standardized(col, mu, sd), col, mu, sd)
  {
    var z := Standardized(col, mu, sd);
    forall i | 0 <= i < |col|
      ensures (z[i].Val? <==> col[i].Val?) && (col[i].Val? ==> z[i].x * sd == col[i].x - mu)
    {
      StandardizedAt(col, mu, sd, i);
    }
  }

  lemma StandardizedAt(col: seq<Value>, mu: real, sd: real, i: nat)
    requires sd != 0.0 && i < |col|
    ensures var z := Standardized(col, mu, sd);
      (z[i].Val? <==> col[i].Val?) && (col[i].Val? ==> z[i].x * sd == col[i].x - mu)
  {
    if col[i].Val? {
      QuotientTimesDivisor(col[i].x - mu, sd);
    }
  }

  /** `(a / d) * d == a` for a non-zero divisor. */
  lemma QuotientTimesDivisor(a: real, d: real)
    requires d != 0.0
    ensures (a / d) * d == a
  {
  }

  /** With no defined entry, every z-score is NaN. */
  lemma ZScoreOfEmptyColumn(col: seq<Value>, sqrt: real -> real)
    requires |Defined(col)| == 0
    ensures forall i :: 0 <= i < |col| ==> ZScore(col, sqrt)[i].NaN?
  {
  }

  /** With a true square root, the guard `sd < 1e-12` is the test `variance < 1e-24`. */
  lemma SpreadGuardIsVarianceTest(col: seq<Value>, sqrt: real -> real)
    requires IsSqrt(sqrt) && |Defined(col)| > 0
    ensures sqrt(PopulationVariance(Defined(col))) < SpreadGuard <==>
      PopulationVariance(Defined(col)) < SpreadGuard * SpreadGuard
  {
    var v := PopulationVariance(Defined(col));
    VarianceNonNegative(Defined(col));
    var s := sqrt(v);
    assert s >= 0.0 && s * s == v;
    SquareOrder(s, SpreadGuard);
  }

  lemma SquareOrder(s: real, g: real)
    requires s >= 0.0 && g > 0.0
    ensures s < g <==> s * s < g * g
  {
    if s < g {
      ProductBelow(s, s, g, g);
    } else {
      ProductBelow(g, g, s, s);
      assert g * g <= s * s;
    }
  }

  /** Products of non-negative factors are monotone: a <= c, b <= d gives a * b <= c * d, strictly when c > a and d > 0. */
  lemma ProductBelow(a: real, b: real, c: real, d: real)
    requires 0.0 <= a <= c && 0.0 <= b <= d
    ensures a * b <= c * d
    ensures a < c && b < d ==> a * b < c * d
  {
    assert a * b <= c * b;
    assert c * b <= c * d;
    if a < c && b < d {
      assert c * b < c * d;
    }
  }

  /** Each value minus `mu`. */
  function Shift(s: seq<real>, mu: real): (r: seq<real>)
    ensures |r| == |s|
  {
    if s == [] then [] else [s[0] - mu] + Shift(s[1..], mu)
  }

  /** Each value divided by `d`. */
  function Divide(s: seq<real>, d: real): (r: seq<real>)
    requires d != 0.0
    ensures |r| == |s|
  {
    if s == [] then [] else [s[0] / d] + Divide(s[1..], d)
  }

  lemma {:induction false} SumOfShift(s: seq<real>, mu: real)
    ensures Sum(Shift(s, mu)) == Sum(s) - |s| as real * mu
  {
    if s != [] {
      SumOfShift(s[1..], mu);
      assert Shift(s, mu)[1..] == Shift(s[1..], mu);
      Distribute(|s[1..]| as real, mu);
    }
  }

  lemma Distribute(n: real, mu: real)
    ensures (n + 1.0) * mu == n * mu + mu
  {
  }

  lemma AddQuotients(a: real, b: real, d: real)
    requires d != 0.0
    ensures a / d + b / d == (a + b) / d
  {
  }

  lemma {:induction false} SumOfDivide(s: seq<real>, d: real)
    requires d != 0.0
    ensures Sum(Divide(s, d)) == Sum(s) / d
  {
    if s != [] {
      SumOfDivide(s[1..], d);
      assert Divide(s, d)[1..] == Divide(s[1..], d);
      AddQuotients(s[0], Sum(s[1..]), d);
    }
  }

  /** The defined values of a standardised column are its defined values, shifted and divided. */
  lemma {:induction false} DefinedOfStandardized(col: seq<Value>, mu: real, sd: real)
    requires sd != 0.0
    ensures Defined(Standardized(col, mu, sd)) == Divide(Shift(Defined(col), mu), sd)
  {
    if col != [] {
      DefinedOfStandardized(col[1..], mu, sd);
      var z := Standardized(col, mu, sd);
      assert z[1..] == Standardized(col[1..], mu, sd);
      if col[0].Val? {
        var xs := Defined(col);
        assert xs == [col[0].x] + Defined(col[1..]);
        assert xs[0] == col[0].x && xs[1..] == Defined(col[1..]);
        var sh := Shift(xs, mu);
        assert sh[0] == col[0].x - mu && sh[1..] == Shift(Defined(col[1..]), mu);
        assert Divide(sh, sd) == [sh[0] / sd] + Divide(sh[1..], sd);
        assert Defined(z) == [(col[0].x - mu) / sd] + Defined(z[1..]);
      } else {
        assert Defined(col) == Defined(col[1..]);
        assert Defined(z) == Defined(z[1..]);
      }
    }
  }

  lemma {:induction false} SumOfZeros(n: nat)
    ensures Sum(Defined(Zeros(n))) == 0.0
  {
    if n > 0 {
      assert Zeros(n)[1..] == Zeros(n - 1);
      SumOfZeros(n - 1);
    }
  }

  /** The defined z-scores of a column always sum to zero, so their mean is 0. */
  lemma ZScoreSumsToZero(col: seq<Value>, sqrt: real -> real)
    ensures Sum(Defined(ZScore(col, sqrt))) == 0.0
  {
    var vs := Defined(col);
    if |vs| > 0 {
      if sqrt(PopulationVariance(vs)) < SpreadGuard {
        SumOfZeros(|col|);
      } else {
        SpreadZScoreSumsToZero(col, sqrt);
      }
    }
  }

  lemma SpreadZScoreSumsToZero(col: seq<Value>, sqrt: real -> real)
    requires |Defined(col)| > 0 && !(sqrt(PopulationVariance(Defined(col))) < SpreadGuard)
    ensures Sum(Defined(ZScore(col, sqrt))) == 0.0
  {
    var sd := sqrt(PopulationVariance(Defined(col)));
    var mu := Mean(Defined(col));
    assert ZScore(col, sqrt) == Standardized(col, mu, sd);
    StandardizedByMeanSumsToZero(col, mu, sd);
  }

  lemma StandardizedByMeanSumsToZero(col: seq<Value>, mu: real, sd: real)
    requires |Defined(col)| > 0 && mu == Mean(Defined(col)) && sd != 0.0
    ensures Sum(Defined(Standardized(col, mu, sd))) == 0.0
  {
    var vs := Defined(col);
    DefinedOfStandardized(col, mu, sd);
    SumOfDivide(Shift(vs, mu), sd);
    CentredValuesSumToZero(vs, mu);
  }

  /** Values minus their mean sum to zero. */
  lemma CentredValuesSumToZero(vs: seq<real>, mu: real)
    requires |vs| > 0 && mu == Mean(vs)
    ensures Sum(Shift(vs, mu)) == 0.0
  {
    QuotientTimesDivisor(Sum(vs), |vs| as real);
    ShiftByMeanSumsToZero(vs, mu);
  }

  lemma ShiftByMeanSumsToZero(vs: seq<real>, mu: real)
    requires mu * |vs| as real == Sum(vs)
    ensures Sum(Shift(vs, mu)) == 0.0
  {
    SumOfShift(vs, mu);
  }

  lemma DivideMonotone(a: real, b: real, d: real)
    requires a <= b && d > 0.0
    ensures a / d <= b / d
  {
  }

  /** z-scoring preserves order: a smaller defined entry never gets a larger score. */
  lemma ZScorePreservesOrder(col: seq<Value>, sqrt: real -> real, i: nat, j: nat)
    requires i < |col| && j < |col| && col[i].Val? && col[j].Val? && col[i].x <= col[j].x
    ensures ZScore(col, sqrt)[i].Val? && ZScore(col, sqrt)[j].Val?
    ensures ZScore(col, sqrt)[i].x <= ZScore(col, sqrt)[j].x
  {
    var vs := Defined(col);
    var sd := sqrt(PopulationVariance(vs));
    if !(sd < SpreadGuard) {
      DivideMonotone(col[i].x - Mean(vs), col[j].x - Mean(vs), sd);
    }
  }

  /** A true square root of 0 is 0. */
  lemma SqrtOfZero(sqrt: real -> real)
    requires IsSqrt(sqrt)
    ensures sqrt(0.0) == 0.0
  {
    var s := sqrt(0.0);
    assert s >= 0.0 && s * s == 0.0;
    if s > 0.0 {
      ProductBelow(0.0, 0.0, s, s);
    }
  }

  /** A column whose defined entries are all equal is flat: every z-score, NaN entries' included, is 0. */
  lemma ZScoreOfConstantColumn(col: seq<Value>, sqrt: real -> real)
    requires IsSqrt(sqrt) && |Defined(col)| > 0
    requires forall i, j :: 0 <= i < |col| && 0 <= j < |col| && col[i].Val? && col[j].Val? ==> col[i].x == col[j].x
    ensures forall i :: 0 <= i < |col| ==> ZScore(col, sqrt)[i] == Val(0.0)
  {
    var vs := Defined(col);
    var c := vs[0];
    forall k | 0 <= k < |vs|
      ensures vs[k] == c
    {
      DefinedComesFrom(col, vs[k]);
      DefinedComesFrom(col, c);
    }
    VarianceOfConstant(vs, c);
    SqrtOfZero(sqrt);
  }
}
