/**
 * `score_companies` of src/scoring.py: peer z-scores of eight metric columns and of the
 * inverted debt-to-equity, four category means, a weighted total, its z-score rescaled
 * to 0-100, and the rows sorted by that score.
 */
module Scoring {
  import opened Wrappers
  import opened Frames
  import opened Stats
  import opened ZScores
  import opened Ranking

  datatype Weights = Weights(profitability: real, liquidity: real, leverage: real, cashGen: real)

  /** `DEFAULT_WEIGHTS`. */
  const DefaultWeights: Weights := Weights(0.35, 0.20, 0.20, 0.25)

  /** The keys a weights dictionary is read with, in the order the total reads them. */
  const WeightKeys: seq<string> := ["profitability", "liquidity", "leverage", "cash_gen"]

  function WeightSum(w: Weights): real
  {
    w.profitability + w.liquidity + w.leverage + w.cashGen
  }

  /**
   * `w = weights or DEFAULT_WEIGHTS` and the four reads `w["profitability"]` ... `w["cash_gen"]`:
   * no dictionary or an empty one gives the defaults, which sum to 1; otherwise the first
   * missing key raises KeyError and extra keys are ignored.
   */
  function ResolveWeights(weights: Option<map<string, real>>): (r: Result<Weights>)
    ensures weights.None? || weights.value == map[] ==> r == Ok(DefaultWeights) && WeightSum(r.value) == 1.0
    ensures weights.Some? && weights.value != map[] && r.Ok? ==>
      && (forall k :: k in WeightKeys ==> k in weights.value)
      && r.value == Weights(weights.value["profitability"], weights.value["liquidity"],
                            weights.value["leverage"], weights.value["cash_gen"])
    ensures r.Err? ==>
      && weights.Some?
      && exists j :: 0 <= j < |WeightKeys| && WeightKeys[j] !in weights.value && r.error == KeyError(WeightKeys[j]) &&
           (forall l :: 0 <= l < j ==> WeightKeys[l] in weights.value)
  {
    if weights.None? || weights.value == map[] then Ok(DefaultWeights)
    else
      var m := weights.value;
      if WeightKeys[0] !in m then Err(KeyError(WeightKeys[0]))
      else if WeightKeys[1] !in m then Err(KeyError(WeightKeys[1]))
      else if WeightKeys[2] !in m then Err(KeyError(WeightKeys[2]))
      else if WeightKeys[3] !in m then Err(KeyError(WeightKeys[3]))
      else Ok(Weights(m["profitability"], m["liquidity"], m["leverage"], m["cash_gen"]))
  }

  /** The columns z-scored by the loop, in its order: profitability, liquidity, cash generation. */
  const ZScoredColumns: seq<string> :=
    ["ebit_margin", "ebitda_margin", "roa", "roe", "current_ratio", "quick_ratio", "ocf_margin", "fcf_margin"]

  const LeverageColumn: string := "debt_to_equity"

  /** Every column the scoring reads, in the order it reads them. */
  const RequiredColumns: seq<string> := ZScoredColumns + [LeverageColumn]

  /** The numeric readings of a column, one per row. */
  function ColumnValues(t: Table, c: string): (v: seq<Value>)
    ensures |v| == |t.rows|
    ensures forall i :: 0 <= i < |t.rows| ==> v[i] == NumberIn(t.rows[i], c)
  {
    seq(|t.rows|, i requires 0 <= i < |t.rows| => NumberIn(t.rows[i], c))
  }

  /** Entry-wise negation, NaN staying NaN. */
  function Negated(v: seq<Value>): (n: seq<Value>)
    ensures |n| == |v|
    ensures forall i :: 0 <= i < |v| ==> (n[i].Val? <==> v[i].Val?) && (v[i].Val? ==> n[i].x == -v[i].x)
  {
    seq(|v|, i requires 0 <= i < |v| => if v[i].Val? then Val(-v[i].x) else NaN)
  }

  /** The z-score columns the loop writes, one per entry of ZScoredColumns. */
  function ZColumns(t: Table, sqrt: real -> real): (zs: seq<seq<Value>>)
    ensures |zs| == |ZScoredColumns|
    ensures forall k :: 0 <= k < |zs| ==> |zs[k]| == |t.rows|
  {
    seq(|ZScoredColumns|, k requires 0 <= k < |ZScoredColumns| => ZScore(ColumnValues(t, ZScoredColumns[k]), sqrt))
  }

  /** `z_debt_to_equity = -_zscore(debt_to_equity)`: a lower leverage is better. */
  function LeverageScores(t: Table, sqrt: real -> real): (lev: seq<Value>)
    ensures |lev| == |t.rows|
  {
    Negated(ZScore(ColumnValues(t, LeverageColumn), sqrt))
  }

  /** Eight z-score columns and the leverage column, each with one entry per row. */
  predicate Shaped(zs: seq<seq<Value>>, lev: seq<Value>, n: nat)
  {
    |zs| == |ZScoredColumns| && (forall k :: 0 <= k < |zs| ==> |zs[k]| == n) && |lev| == n
  }

  /**
   * `.mean(axis=1)` over a category's z-scores: the mean of the defined ones,
   * NaN exactly when none is defined.
   */
  function CategoryMean(vs: seq<Value>): (m: Value)
    ensures m.NaN? <==> forall i :: 0 <= i < |vs| ==> vs[i].NaN?
    ensures m.Val? ==> m.x * |Defined(vs)| as real == Sum(Defined(vs))
  {
    var d := Defined(vs);
    if |d| == 0 then NaN
    else
      QuotientTimesDivisor(Sum(d), |d| as real);
      Val(Mean(d))
  }

  function Profitability(zs: seq<seq<Value>>, lev: seq<Value>, n: nat, i: nat): Value
    requires Shaped(zs, lev, n) && i < n
  {
    CategoryMean([zs[0][i], zs[1][i], zs[2][i], zs[3][i]])
  }

  function Liquidity(zs: seq<seq<Value>>, lev: seq<Value>, n: nat, i: nat): Value
    requires Shaped(zs, lev, n) && i < n
  {
    CategoryMean([zs[4][i], zs[5][i]])
  }

  function CashGeneration(zs: seq<seq<Value>>, lev: seq<Value>, n: nat, i: nat): Value
    requires Shaped(zs, lev, n) && i < n
  {
    CategoryMean([zs[6][i], zs[7][i]])
  }

  /** `score_total`: the weighted sum of the four categories; NaN in one makes it NaN. */
  function WeightedTotal(w: Weights, p: Value, l: Value, lev: Value, c: Value): (t: Value)
    ensures t.Val? <==> p.Val? && l.Val? && lev.Val? && c.Val?
  {
    if p.Val? && l.Val? && lev.Val? && c.Val?
    then Val(w.profitability * p.x + w.liquidity * l.x + w.leverage * lev.x + w.cashGen * c.x)
    else NaN
  }

  function Totals(zs: seq<seq<Value>>, lev: seq<Value>, w: Weights, n: nat): (tot: seq<Value>)
    requires Shaped(zs, lev, n)
    ensures |tot| == n
    ensures forall i :: 0 <= i < n ==>
      tot[i] == WeightedTotal(w, Profitability(zs, lev, n, i), Liquidity(zs, lev, n, i), lev[i], CashGeneration(zs, lev, n, i))
  {
    seq(n, i requires 0 <= i < n =>
      WeightedTotal(w, Profitability(zs, lev, n, i), Liquidity(zs, lev, n, i), lev[i], CashGeneration(zs, lev, n, i)))
  }

  /** The slack 1e-9 added to the range in the 0-100 rescale. */
  const RescaleSlack: real := 0.000000001

  function Scaled(x: real, lo: real, hi: real): real
    requires lo <= hi
  {
    (x - lo) / (hi - lo + RescaleSlack) * 100.0
  }

  function RescaledBy(z: seq<Value>, lo: real, hi: real): (s: seq<Value>)
    requires lo <= hi
    ensures |s| == |z|
    ensures forall i :: 0 <= i < |z| ==> s[i] == if z[i].Val? then Val(Scaled(z[i].x, lo, hi)) else NaN
  {
    seq(|z|, i requires 0 <= i < |z| => if z[i].Val? then Val(Scaled(z[i].x, lo, hi)) else NaN)
  }

  /**
   * `(z - z.min()) / (z.max() - z.min() + 1e-9) * 100`, where min and max skip NaN;
   * a column without defined entries stays all NaN.
   */
  function Rescale(z: seq<Value>): (s: seq<Value>)
    ensures |s| == |z|
    ensures forall i :: 0 <= i < |z| ==> (s[i].Val? <==> z[i].Val?)
  {
    var d := Defined(z);
    if |d| == 0 then z
    else RescaledBy(z, Min(d), Max(d))
  }

  lemma ScaledInRange(x: real, lo: real, hi: real)
    requires lo <= x <= hi
    ensures 0.0 <= Scaled(x, lo, hi) < 100.0
  {
    var d := hi - lo + RescaleSlack;
    var q := (x - lo) / d;
    assert q * d == x - lo;
    assert q < 1.0 by {
      if q >= 1.0 { ProductBelow(1.0, d, q, d); }
    }
  }

  /** Every rescaled score lies in [0, 100). */
  lemma RescaleInRange(z: seq<Value>)
    ensures forall i :: 0 <= i < |z| && Rescale(z)[i].Val? ==> 0.0 <= Rescale(z)[i].x < 100.0
  {
    var d := Defined(z);
    if |d| > 0 {
      DefinedWithinRange(z);
      forall i | 0 <= i < |z| && z[i].Val?
        ensures 0.0 <= Rescale(z)[i].x < 100.0
      {
        ScaledInRange(z[i].x, Min(d), Max(d));
      }
    }
  }

  /** An entry no larger than any other defined entry rescales to 0. */
  lemma RescaleMinimumIsZero(z: seq<Value>, i: nat)
    requires i < |z| && z[i].Val?
    requires forall j :: 0 <= j < |z| && z[j].Val? ==> z[i].x <= z[j].x
    ensures Rescale(z)[i] == Val(0.0)
  {
    var d := Defined(z);
    DefinedContains(z, i);
    DefinedComesFrom(z, Min(d));
    DefinedWithinRange(z);
    assert Min(d) == z[i].x;
  }

  /** A column of zeros rescales to zeros. */
  lemma RescaleOfZeros(z: seq<Value>)
    requires |z| > 0 && forall i :: 0 <= i < |z| ==> z[i] == Val(0.0)
    ensures forall i :: 0 <= i < |z| ==> Rescale(z)[i] == Val(0.0)
  {
    forall i | 0 <= i < |z|
      ensures Rescale(z)[i] == Val(0.0)
    {
      RescaleMinimumIsZero(z, i);
    }
  }

  /** The values written into one row. */
  datatype Scores = Scores(
    zEbitMargin: Value, zEbitdaMargin: Value, zRoa: Value, zRoe: Value,
    zCurrentRatio: Value, zQuickRatio: Value, zOcfMargin: Value, zFcfMargin: Value, zDebtToEquity: Value,
    profitability: Value, liquidity: Value, leverage: Value, cash: Value, total: Value, scaled: Value)

  const ScoreColumns: set<string> := {
    "z_ebit_margin", "z_ebitda_margin", "z_roa", "z_roe", "z_current_ratio", "z_quick_ratio",
    "z_ocf_margin", "z_fcf_margin", "z_debt_to_equity", "score_profitability", "score_liquidity",
    "score_leverage", "score_cash", "score_total", "score_0_100"
  }

  function ScoresAt(zs: seq<seq<Value>>, lev: seq<Value>, tot: seq<Value>, scaled: seq<Value>, n: nat, i: nat): Scores
    requires Shaped(zs, lev, n) && |tot| == n && |scaled| == n && i < n
  {
    Scores(zs[0][i], zs[1][i], zs[2][i], zs[3][i], zs[4][i], zs[5][i], zs[6][i], zs[7][i], lev[i],
      Profitability(zs, lev, n, i), Liquidity(zs, lev, n, i), lev[i], CashGeneration(zs, lev, n, i),
      tot[i], scaled[i])
  }

  /** The row of the copied frame with the score columns written on top of its cells. */
  function WithScores(row: Row, s: Scores): Row
  {
    row
      ["z_ebit_margin" := AsCell(s.zEbitMargin)]
      ["z_ebitda_margin" := AsCell(s.zEbitdaMargin)]
      ["z_roa" := AsCell(s.zRoa)]
      ["z_roe" := AsCell(s.zRoe)]
      ["z_current_ratio" := AsCell(s.zCurrentRatio)]
      ["z_quick_ratio" := AsCell(s.zQuickRatio)]
      ["z_ocf_margin" := AsCell(s.zOcfMargin)]
      ["z_fcf_margin" := AsCell(s.zFcfMargin)]
      ["z_debt_to_equity" := AsCell(s.zDebtToEquity)]
      ["score_profitability" := AsCell(s.profitability)]
      ["score_liquidity" := AsCell(s.liquidity)]
      ["score_leverage" := AsCell(s.leverage)]
      ["score_cash" := AsCell(s.cash)]
      ["score_total" := AsCell(s.total)]
      ["score_0_100" := AsCell(s.scaled)]
  }

  /** Reads the score columns back out of a row. */
  function ReadScores(row: Row): Scores
  {
    Scores(
      NumberIn(row, "z_ebit_margin"), NumberIn(row, "z_ebitda_margin"), NumberIn(row, "z_roa"),
      NumberIn(row, "z_roe"), NumberIn(row, "z_current_ratio"), NumberIn(row, "z_quick_ratio"),
      NumberIn(row, "z_ocf_margin"), NumberIn(row, "z_fcf_margin"), NumberIn(row, "z_debt_to_equity"),
      NumberIn(row, "score_profitability"), NumberIn(row, "score_liquidity"), NumberIn(row, "score_leverage"),
      NumberIn(row, "score_cash"), NumberIn(row, "score_total"), NumberIn(row, "score_0_100"))
  }

  lemma WithScoresKeepsOwnCells(row: Row, s: Scores)
    ensures WithScores(row, s).Keys == row.Keys + ScoreColumns
    ensures forall c :: c in row && c !in ScoreColumns ==> WithScores(row, s)[c] == row[c]
  {
  }

  lemma ReadBackZ(row: Row, s: Scores)
    ensures NumberIn(WithScores(row, s), "z_ebit_margin") == s.zEbitMargin
    ensures NumberIn(WithScores(row, s), "z_ebitda_margin") == s.zEbitdaMargin
    ensures NumberIn(WithScores(row, s), "z_roa") == s.zRoa
    ensures NumberIn(WithScores(row, s), "z_roe") == s.zRoe
    ensures NumberIn(WithScores(row, s), "z_current_ratio") == s.zCurrentRatio
  {
  }

  lemma ReadBackMoreZ(row: Row, s: Scores)
    ensures NumberIn(WithScores(row, s), "z_quick_ratio") == s.zQuickRatio
    ensures NumberIn(WithScores(row, s), "z_ocf_margin") == s.zOcfMargin
    ensures NumberIn(WithScores(row, s), "z_fcf_margin") == s.zFcfMargin
    ensures NumberIn(WithScores(row, s), "z_debt_to_equity") == s.zDebtToEquity
    ensures NumberIn(WithScores(row, s), "score_profitability") == s.profitability
  {
  }

  lemma ReadBackTotals(row: Row, s: Scores)
    ensures NumberIn(WithScores(row, s), "score_liquidity") == s.liquidity
    ensures NumberIn(WithScores(row, s), "score_leverage") == s.leverage
    ensures NumberIn(WithScores(row, s), "score_cash") == s.cash
    ensures NumberIn(WithScores(row, s), "score_total") == s.total
    ensures NumberIn(WithScores(row, s), "score_0_100") == s.scaled
  {
  }

  /** Writing the scores adds exactly the score columns, keeps the others, and reads back unchanged. */
  lemma WrittenScores()
    ensures forall row, s {:trigger WithScores(row, s)} ::
      && WithScores(row, s).Keys == row.Keys + ScoreColumns
      && (forall c :: c in row && c !in ScoreColumns ==> WithScores(row, s)[c] == row[c])
      && ReadScores(WithScores(row, s)) == s
  {
    forall row, s
      ensures WithScores(row, s).Keys == row.Keys + ScoreColumns
      ensures forall c :: c in row && c !in ScoreColumns ==> WithScores(row, s)[c] == row[c]
      ensures ReadScores(WithScores(row, s)) == s
    {
      WithScoresKeepsOwnCells(row, s);
      ReadBackZ(row, s);
      ReadBackMoreZ(row, s);
      ReadBackTotals(row, s);
    }
  }

  /** The rows of the scored frame before sorting, from given z-score columns. */
  function ScoredRows(t: Table, zs: seq<seq<Value>>, lev: seq<Value>, w: Weights, sqrt: real -> real): (rows: seq<Row>)
    requires Shaped(zs, lev, |t.rows|)
    ensures |rows| == |t.rows|
    ensures forall i :: 0 <= i < |t.rows| ==> rows[i].Keys == t.rows[i].Keys + ScoreColumns
    ensures forall i, c :: 0 <= i < |t.rows| && c in t.rows[i] && c !in ScoreColumns ==> rows[i][c] == t.rows[i][c]
    ensures forall i :: 0 <= i < |t.rows| ==>
      ReadScores(rows[i]) ==
        ScoresAt(zs, lev, Totals(zs, lev, w, |t.rows|), Rescale(ZScore(Totals(zs, lev, w, |t.rows|), sqrt)), |t.rows|, i)
  {
    WrittenScores();
    var n := |t.rows|;
    var tot := Totals(zs, lev, w, n);
    var scaled := Rescale(ZScore(tot, sqrt));
    seq(n, i requires 0 <= i < n => WithScores(t.rows[i], ScoresAt(zs, lev, tot, scaled, n, i)))
  }

  /** The totals of a table under given weights. */
  function TotalsOf(t: Table, w: Weights, sqrt: real -> real): (tot: seq<Value>)
    ensures |tot| == |t.rows|
  {
    Totals(ZColumns(t, sqrt), LeverageScores(t, sqrt), w, |t.rows|)
  }

  /** The scored rows of a table, in input order. */
  function Scored(t: Table, w: Weights, sqrt: real -> real): (rows: seq<Row>)
    ensures |rows| == |t.rows|
  {
    ScoredRows(t, ZColumns(t, sqrt), LeverageScores(t, sqrt), w, sqrt)
  }

  /**
   * score_companies. A missing metric column raises KeyError for the first one read, before
   * any weight is looked up; then a missing weight raises KeyError. Otherwise the result has
   * the input columns plus the score columns, and its rows are the scored input rows,
   * permuted into descending order of score_0_100 with NaN last; every score lies in [0, 100).
   */
  method ScoreCompanies(t: Table, weights: Option<map<string, real>>, sqrt: real -> real) returns (r: Result<Table>)
    ensures forall j ::
      (0 <= j < |RequiredColumns| && RequiredColumns[j] !in t.columns &&
       (forall l :: 0 <= l < j ==> RequiredColumns[l] in t.columns)) ==> r == Err(KeyError(RequiredColumns[j]))
    ensures (forall c :: c in RequiredColumns ==> c in t.columns) && ResolveWeights(weights).Err? ==>
      r == Err(ResolveWeights(weights).error)
    ensures (forall c :: c in RequiredColumns ==> c in t.columns) && ResolveWeights(weights).Ok? ==>
      && r.Ok?
      && r.value.columns == t.columns + ScoreColumns
      && |r.value.rows| == |t.rows|
      && multiset(r.value.rows) == multiset(Scored(t, ResolveWeights(weights).value, sqrt))
      && SortedByScore(r.value.rows)
      && forall i :: 0 <= i < |r.value.rows| ==> Key(r.value.rows[i]).NaN? || 0.0 <= Key(r.value.rows[i]).x < 100.0
  {
    var zs: seq<seq<Value>> := [];
    for k := 0 to |ZScoredColumns|
      invariant |zs| == k
      invariant forall j :: 0 <= j < k ==> RequiredColumns[j] in t.columns
      invariant forall j :: 0 <= j < k ==> zs[j] == ZScore(ColumnValues(t, ZScoredColumns[j]), sqrt)
    {
      var c := ZScoredColumns[k];
      if c !in t.columns {
        assert RequiredColumns[k] == c;
        return Err(KeyError(c));
      }
      zs := zs + [ZScore(ColumnValues(t, c), sqrt)];
    }
    if LeverageColumn !in t.columns {
      return Err(KeyError(LeverageColumn));
    }
    var lev := Negated(ZScore(ColumnValues(t, LeverageColumn), sqrt));
    var w := ResolveWeights(weights);
    if w.Err? {
      return Err(w.error);
    }
    assert zs == ZColumns(t, sqrt);
    var rows := ScoredRows(t, zs, lev, w.value, sqrt);
    RankedInRange(t, w.value, sqrt);
    r := Ok(Table(t.columns + ScoreColumns, SortByScore(rows)));
  }

  /** The ranked rows are sorted by score, and each score is NaN or lies in [0, 100). */
  lemma RankedInRange(t: Table, w: Weights, sqrt: real -> real)
    ensures var sorted := SortByScore(Scored(t, w, sqrt));
      SortedByScore(sorted) && forall i :: 0 <= i < |sorted| ==> Key(sorted[i]).NaN? || 0.0 <= Key(sorted[i]).x < 100.0
  {
    var rows := Scored(t, w, sqrt);
    var sorted := SortByScore(rows);
    SortByScoreSorted(rows);
    ScoredInRange(t, w, sqrt);
    forall i | 0 <= i < |sorted|
      ensures Key(sorted[i]).NaN? || 0.0 <= Key(sorted[i]).x < 100.0
    {
      assert sorted[i] in multiset(rows);
    }
  }

  /** Every scored row has a 0-100 score that is NaN or lies in [0, 100). */
  lemma ScoredInRange(t: Table, w: Weights, sqrt: real -> real)
    ensures forall row :: row in Scored(t, w, sqrt) ==> Key(row).NaN? || 0.0 <= Key(row).x < 100.0
  {
    var rows := Scored(t, w, sqrt);
    var scaled := Rescale(ZScore(TotalsOf(t, w, sqrt), sqrt));
    RescaleInRange(ZScore(TotalsOf(t, w, sqrt), sqrt));
    forall i | 0 <= i < |rows|
      ensures Key(rows[i]).NaN? || 0.0 <= Key(rows[i]).x < 100.0
    {
      assert ReadScores(rows[i]).scaled == scaled[i];
    }
  }

  /** The scores written into row i of the scored table. */
  function RowScores(t: Table, w: Weights, sqrt: real -> real, i: nat): Scores
    requires i < |t.rows|
  {
    ReadScores(Scored(t, w, sqrt)[i])
  }

  lemma RowScoresAre(t: Table, w: Weights, sqrt: real -> real, i: nat)
    requires i < |t.rows|
    ensures RowScores(t, w, sqrt, i) ==
      ScoresAt(ZColumns(t, sqrt), LeverageScores(t, sqrt), TotalsOf(t, w, sqrt),
               Rescale(ZScore(TotalsOf(t, w, sqrt), sqrt)), |t.rows|, i)
  {
  }

  /**
   * Each z_ column of a scored row is the z-score of its metric column at that row,
   * and z_debt_to_equity is the negated z-score of debt_to_equity.
   */
  lemma ScoredZColumns(t: Table, w: Weights, sqrt: real -> real, i: nat)
    requires i < |t.rows|
    ensures RowScores(t, w, sqrt, i).zEbitMargin == ZScore(ColumnValues(t, "ebit_margin"), sqrt)[i]
    ensures RowScores(t, w, sqrt, i).zEbitdaMargin == ZScore(ColumnValues(t, "ebitda_margin"), sqrt)[i]
    ensures RowScores(t, w, sqrt, i).zRoa == ZScore(ColumnValues(t, "roa"), sqrt)[i]
    ensures RowScores(t, w, sqrt, i).zRoe == ZScore(ColumnValues(t, "roe"), sqrt)[i]
    ensures RowScores(t, w, sqrt, i).zCurrentRatio == ZScore(ColumnValues(t, "current_ratio"), sqrt)[i]
    ensures RowScores(t, w, sqrt, i).zQuickRatio == ZScore(ColumnValues(t, "quick_ratio"), sqrt)[i]
    ensures RowScores(t, w, sqrt, i).zOcfMargin == ZScore(ColumnValues(t, "ocf_margin"), sqrt)[i]
    ensures RowScores(t, w, sqrt, i).zFcfMargin == ZScore(ColumnValues(t, "fcf_margin"), sqrt)[i]
    ensures RowScores(t, w, sqrt, i).zDebtToEquity == Negated(ZScore(ColumnValues(t, LeverageColumn), sqrt))[i]
  {
    RowScoresAre(t, w, sqrt, i);
  }

  /**
   * The category, leverage and total columns of a row agree with its z_ columns: a category
   * is the mean of its defined z-scores, NaN exactly when all of them are; score_leverage
   * is z_debt_to_equity; and
   * score_total is the weighted sum of the categories, NaN as soon as one of them is NaN.
   */
  predicate Consistent(s: Scores, w: Weights)
  {
    && (s.profitability.NaN? <==> s.zEbitMargin.NaN? && s.zEbitdaMargin.NaN? && s.zRoa.NaN? && s.zRoe.NaN?)
    && (s.liquidity.NaN? <==> s.zCurrentRatio.NaN? && s.zQuickRatio.NaN?)
    && (s.cash.NaN? <==> s.zOcfMargin.NaN? && s.zFcfMargin.NaN?)
    && s.profitability == CategoryMean([s.zEbitMargin, s.zEbitdaMargin, s.zRoa, s.zRoe])
    && s.liquidity == CategoryMean([s.zCurrentRatio, s.zQuickRatio])
    && s.cash == CategoryMean([s.zOcfMargin, s.zFcfMargin])
    && s.leverage == s.zDebtToEquity
    && s.total == WeightedTotal(w, s.profitability, s.liquidity, s.leverage, s.cash)
  }

  lemma ScoresAtConsistent(zs: seq<seq<Value>>, lev: seq<Value>, w: Weights, scaled: seq<Value>, n: nat, i: nat)
    requires Shaped(zs, lev, n) && |scaled| == n && i < n
    ensures Consistent(ScoresAt(zs, lev, Totals(zs, lev, w, n), scaled, n, i), w)
  {
    var s := ScoresAt(zs, lev, Totals(zs, lev, w, n), scaled, n, i);
    CategoryOfFour(zs[0][i], zs[1][i], zs[2][i], zs[3][i]);
    CategoryOfTwo(zs[4][i], zs[5][i]);
    CategoryOfTwo(zs[6][i], zs[7][i]);
  }

  lemma CategoryOfFour(a: Value, b: Value, c: Value, d: Value)
    ensures CategoryMean([a, b, c, d]).NaN? <==> a.NaN? && b.NaN? && c.NaN? && d.NaN?
  {
    var vs := [a, b, c, d];
    assert vs[0] == a && vs[1] == b && vs[2] == c && vs[3] == d;
  }

  lemma CategoryOfTwo(a: Value, b: Value)
    ensures CategoryMean([a, b]).NaN? <==> a.NaN? && b.NaN?
  {
    var vs := [a, b];
    assert vs[0] == a && vs[1] == b;
  }

  /** Every scored row is consistent. */
  lemma ScoredRowConsistent(t: Table, w: Weights, sqrt: real -> real, i: nat)
    requires i < |t.rows|
    ensures Consistent(RowScores(t, w, sqrt, i), w)
  {
    RowScoresAre(t, w, sqrt, i);
    ScoresAtConsistent(ZColumns(t, sqrt), LeverageScores(t, sqrt), w,
      Rescale(ZScore(TotalsOf(t, w, sqrt), sqrt)), |t.rows|, i);
  }

  /**
   * Leverage is inverted: of two rows with defined debt_to_equity, the one with the lower
   * ratio never has the lower leverage score.
   */
  lemma LeverageInverted(t: Table, w: Weights, sqrt: real -> real, i: nat, j: nat)
    requires i < |t.rows| && j < |t.rows|
    requires NumberIn(t.rows[i], LeverageColumn).Val? && NumberIn(t.rows[j], LeverageColumn).Val?
    requires NumberIn(t.rows[i], LeverageColumn).x <= NumberIn(t.rows[j], LeverageColumn).x
    ensures RowScores(t, w, sqrt, i).leverage.Val? && RowScores(t, w, sqrt, j).leverage.Val?
    ensures RowScores(t, w, sqrt, j).leverage.x <= RowScores(t, w, sqrt, i).leverage.x
  {
    RowScoresAre(t, w, sqrt, i);
    RowScoresAre(t, w, sqrt, j);
    ZScorePreservesOrder(ColumnValues(t, LeverageColumn), sqrt, i, j);
  }

  /** A row whose total is defined and no larger than any other defined total scores 0. */
  lemma MinimumTotalScoresZero(t: Table, w: Weights, sqrt: real -> real, i: nat)
    requires i < |t.rows| && TotalsOf(t, w, sqrt)[i].Val?
    requires forall j :: 0 <= j < |t.rows| && TotalsOf(t, w, sqrt)[j].Val? ==>
      TotalsOf(t, w, sqrt)[i].x <= TotalsOf(t, w, sqrt)[j].x
    ensures RowScores(t, w, sqrt, i).scaled == Val(0.0)
  {
    var tot := TotalsOf(t, w, sqrt);
    var z := ZScore(tot, sqrt);
    forall j | 0 <= j < |z| && z[j].Val?
      ensures z[i].x <= z[j].x
    {
      if tot[j].Val? {
        ZScorePreservesOrder(tot, sqrt, i, j);
      } else {
        ZScoreOfFlatOrEmpty(tot, sqrt, j);
        ZScoreOfFlatColumn(tot, sqrt);
      }
    }
    RescaleMinimumIsZero(z, i);
    RowScoresAre(t, w, sqrt, i);
  }

  /** A NaN entry has a defined z-score only when the column is flat. */
  lemma ZScoreOfFlatOrEmpty(col: seq<Value>, sqrt: real -> real, j: nat)
    requires j < |col| && col[j].NaN? && ZScore(col, sqrt)[j].Val?
    ensures |Defined(col)| > 0 && sqrt(PopulationVariance(Defined(col))) < SpreadGuard
  {
    if |Defined(col)| > 0 && sqrt(PopulationVariance(Defined(col))) >= SpreadGuard {
      ZScoreOfSpreadColumn(col, sqrt);
    }
  }

  /**
   * When every defined total is the same (in particular with one row) and at least one is
   * defined, every row scores 0, rows whose total is NaN included.
   */
  lemma EqualTotalsScoreZero(t: Table, w: Weights, sqrt: real -> real)
    requires IsSqrt(sqrt) && |Defined(TotalsOf(t, w, sqrt))| > 0
    requires forall i, j ::
      (0 <= i < |t.rows| && 0 <= j < |t.rows| && TotalsOf(t, w, sqrt)[i].Val? && TotalsOf(t, w, sqrt)[j].Val?) ==>
      TotalsOf(t, w, sqrt)[i].x == TotalsOf(t, w, sqrt)[j].x
    ensures forall i :: 0 <= i < |t.rows| ==> RowScores(t, w, sqrt, i).scaled == Val(0.0)
  {
    var tot := TotalsOf(t, w, sqrt);
    ZScoreOfConstantColumn(tot, sqrt);
    RescaleOfZeros(ZScore(tot, sqrt));
    forall i | 0 <= i < |t.rows|
      ensures RowScores(t, w, sqrt, i).scaled == Val(0.0)
    {
      RowScoresAre(t, w, sqrt, i);
    }
  }

  /** A one-row table scores 0 when its total is defined and NaN otherwise. */
  lemma SingleRowScoresZero(t: Table, w: Weights, sqrt: real -> real)
    requires IsSqrt(sqrt) && |t.rows| == 1 && TotalsOf(t, w, sqrt)[0].Val?
    ensures RowScores(t, w, sqrt, 0).scaled == Val(0.0)
  {
    DefinedContains(TotalsOf(t, w, sqrt), 0);
    OneTotalIsConstant(TotalsOf(t, w, sqrt));
    EqualTotalsScoreZero(t, w, sqrt);
  }

  lemma OneTotalIsConstant(tot: seq<Value>)
    requires |tot| == 1
    ensures forall i, j :: (0 <= i < |tot| && 0 <= j < |tot| && tot[i].Val? && tot[j].Val?) ==> tot[i].x == tot[j].x
  {
  }

  /** A single row with an undefined total gets no score either. */
  lemma SingleRowUndefinedTotal(t: Table, w: Weights, sqrt: real -> real)
    requires |t.rows| == 1 && TotalsOf(t, w, sqrt)[0].NaN?
    ensures RowScores(t, w, sqrt, 0).scaled.NaN?
  {
    var tot := TotalsOf(t, w, sqrt);
    RowScoresAre(t, w, sqrt, 0);
    ZScoreOfEmptyColumn(tot, sqrt);
  }
}
