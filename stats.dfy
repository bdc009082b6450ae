/**
 * NaN-ignoring batch statistics: the numpy `nanmean`, `nanstd`, `min` and `max` that
 * src/scoring.py applies to a column, over the defined entries of a sequence of Values.
 */
module Stats {
  import opened Frames

  /** The defined entries of a column, in order (the values numpy's nan-functions look at). */
  function Defined(col: seq<Value>): (vs: seq<real>)
    ensures |vs| <= |col|
    ensures |vs| == 0 <==> forall i :: 0 <= i < |col| ==> col[i].NaN?
  {
    if col == [] then []
    else if col[0].Val? then [col[0].x] + Defined(col[1..])
    else Defined(col[1..])
  }

  /** Every defined entry of a column is among its defined values. */
  lemma {:induction false} DefinedContains(col: seq<Value>, i: nat)
    requires i < |col| && col[i].Val?
    ensures col[i].x in Defined(col)
  {
    if i > 0 {
      DefinedContains(col[1..], i - 1);
    }
  }

  /** Every defined value comes from a defined entry of the column. */
  lemma {:induction false} DefinedComesFrom(col: seq<Value>, x: real)
    requires x in Defined(col)
    ensures exists i :: 0 <= i < |col| && col[i] == Val(x)
  {
    if col[0].Val? && x == col[0].x {
      assert col[0] == Val(x);
    } else {
      DefinedComesFrom(col[1..], x);
      var i :| 0 <= i < |col[1..]| && col[1..][i] == Val(x);
      assert col[i + 1] == Val(x);
    }
  }

  function Sum(s: seq<real>): real
  {
    if s == [] then 0.0 else s[0] + Sum(s[1..])
  }

  /** The arithmetic mean (numpy's nanmean over the defined values). */
  function Mean(s: seq<real>): real
    requires |s| > 0
  {
    Sum(s) / |s| as real
  }

  function SquaredDeviations(s: seq<real>, m: real): (d: seq<real>)
    ensures |d| == |s|
    ensures forall i :: 0 <= i < |s| ==> d[i] == (s[i] - m) * (s[i] - m)
  {
    if s == [] then [] else [(s[0] - m) * (s[0] - m)] + SquaredDeviations(s[1..], m)
  }

  /** The population variance (ddof = 0), whose square root is numpy's nanstd. */
  function PopulationVariance(s: seq<real>): real
    requires |s| > 0
  {
    Sum(SquaredDeviations(s, Mean(s))) / |s| as real
  }

  lemma {:induction false} SumNonNegative(s: seq<real>)
    requires forall i :: 0 <= i < |s| ==> s[i] >= 0.0
    ensures Sum(s) >= 0.0
  {
    if s != [] {
      SumNonNegative(s[1..]);
    }
  }

  /** A population variance is never negative. */
  lemma VarianceNonNegative(s: seq<real>)
    requires |s| > 0
    ensures PopulationVariance(s) >= 0.0
  {
    var d := SquaredDeviations(s, Mean(s));
    forall i | 0 <= i < |d| ensures d[i] >= 0.0 {
      var e := s[i] - Mean(s);
      assert d[i] == e * e;
    }
    SumNonNegative(d);
  }

  /** The sum of n copies of c is n times c. */
  lemma {:induction false} SumOfConstant(s: seq<real>, c: real)
    requires forall i :: 0 <= i < |s| ==> s[i] == c
    ensures Sum(s) == |s| as real * c
  {
    if s != [] {
      SumOfConstant(s[1..], c);
    }
  }

  /** The smallest of a non-empty sequence of reals. */
  function Min(s: seq<real>): (m: real)
    requires |s| > 0
    ensures m in s
    ensures forall i :: 0 <= i < |s| ==> m <= s[i]
  {
    if |s| == 1 then s[0]
    else
      var rest := Min(s[1..]);
      assert forall i :: 1 <= i < |s| ==> s[i] == s[1..][i - 1];
      if s[0] <= rest then s[0] else rest
  }

  /** The largest of a non-empty sequence of reals. */
  function Max(s: seq<real>): (m: real)
    requires |s| > 0
    ensures m in s
    ensures forall i :: 0 <= i < |s| ==> s[i] <= m
  {
    if |s| == 1 then s[0]
    else
      var rest := Max(s[1..]);
      assert forall i :: 1 <= i < |s| ==> s[i] == s[1..][i - 1];
      if s[0] >= rest then s[0] else rest
  }

  /** Every defined entry of a column lies between the minimum and the maximum of its defined values. */
  lemma DefinedWithinRange(col: seq<Value>)
    requires |Defined(col)| > 0
    ensures forall i :: 0 <= i < |col| && col[i].Val? ==>
      Min(Defined(col)) <= col[i].x <= Max(Defined(col))
  {
    var vs := Defined(col);
    forall i | 0 <= i < |col| && col[i].Val?
      ensures Min(vs) <= col[i].x <= Max(vs)
    {
      DefinedContains(col, i);
      var k :| 0 <= k < |vs| && vs[k] == col[i].x;
    }
  }

  /** The mean of values all equal to c is c. */
  lemma MeanOfConstant(s: seq<real>, c: real, m: real)
    requires |s| > 0 && m == Mean(s)
    requires forall i :: 0 <= i < |s| ==> s[i] == c
    ensures m == c
  {
    SumOfConstant(s, c);
    CancelCount(|s| as real, c);
  }

  lemma CancelCount(n: real, c: real)
    requires n > 0.0
    ensures (n * c) / n == c
  {
  }

  /** Values that are all equal have population variance 0. */
  lemma VarianceOfConstant(s: seq<real>, c: real)
    requires |s| > 0
    requires forall i :: 0 <= i < |s| ==> s[i] == c
    ensures PopulationVariance(s) == 0.0
  {
    var m := Mean(s);
    MeanOfConstant(s, c, m);
    var d := SquaredDeviations(s, m);
    assert forall i :: 0 <= i < |d| ==> d[i] == 0.0;
    SumOfConstant(d, 0.0);
  }
}
