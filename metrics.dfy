/**
 * The metrics engine of src/metrics.py: derived size, capital-structure and ratio
 * columns computed row by row from the canonical line items.
 * Numbers are read as Values, where NaN is the marker pandas uses for "undefined".
 */
module Metrics {
  import opened Wrappers
  import opened Frames

  /** The near-zero threshold of safe division (1e-12). */
  const DivisionGuard: real := 0.000000000001

  function Abs(x: real): real { if x < 0.0 then -x else x }

  /**
   * `df.get(name, 0)` read cell by cell: a column the table lacks reads as 0,
   * a numeric cell as its value, and a missing or textual cell as NaN.
   */
  function Column(row: Row, name: string): (v: Value)
    ensures name !in row ==> v == Val(0.0)
    ensures v.Val? && name in row ==> row[name] == Num(v.x)
  {
    if name !in row then Val(0.0)
    else match row[name]
      case Num(r) => Val(r)
      case _ => NaN
  }

  // NaN-propagating arithmetic.
  function Plus(a: Value, b: Value): Value
  {
    if a.Val? && b.Val? then Val(a.x + b.x) else NaN
  }

  function Minus(a: Value, b: Value): Value
  {
    if a.Val? && b.Val? then Val(a.x - b.x) else NaN
  }

  function Times(a: Value, b: Value): Value
  {
    if a.Val? && b.Val? then Val(a.x * b.x) else NaN
  }

  function Magnitude(a: Value): Value
  {
    if a.Val? then Val(Abs(a.x)) else NaN
  }

  /**
   * `safe_div`: the quotient when the denominator is further than 1e-12 from zero,
   * NaN otherwise (and NaN whenever an operand is NaN). A defined result is never
   * infinite: it is a real that multiplied by the denominator gives the numerator.
   */
  function SafeDiv(a: Value, b: Value): (r: Value)
    ensures r.Val? <==> a.Val? && b.Val? && (b.x > DivisionGuard || b.x < -DivisionGuard)
    ensures r.Val? ==> r.x * b.x == a.x
  {
    if a.Val? && b.Val? && Abs(b.x) > DivisionGuard then Val(a.x / b.x) else NaN
  }

  /** The derived columns of one row, in the order compute_metrics assigns them. */
  datatype Derived = Derived(
    marketCap: Value, netDebt: Value, enterpriseValue: Value,
    ebitMargin: Value, ebitdaMargin: Value, roa: Value, roe: Value,
    currentRatio: Value, quickRatio: Value,
    debtToEquity: Value, netDebtToEbitda: Value,
    ocfMargin: Value, fcf: Value, fcfMargin: Value, evEbitda: Value)

  const DerivedColumns: set<string> := {
    "market_cap", "net_debt", "enterprise_value", "ebit_margin", "ebitda_margin", "roa", "roe",
    "current_ratio", "quick_ratio", "debt_to_equity", "net_debt_to_ebitda",
    "ocf_margin", "fcf", "fcf_margin", "ev_ebitda"}

  // The formulas of compute_metrics, one derived column each.
  function MarketCap(row: Row): Value
  {
    Times(Column(row, "price"), Column(row, "shares_basic"))
  }

  function TotalDebt(row: Row): Value
  {
    Plus(Column(row, "short_term_debt"), Column(row, "long_term_debt"))
  }

  function NetDebt(row: Row): Value
  {
    Minus(TotalDebt(row), Column(row, "cash"))
  }

  function EnterpriseValue(row: Row): Value
  {
    Plus(MarketCap(row), NetDebt(row))
  }

  function EbitMargin(row: Row): Value
  {
    SafeDiv(Column(row, "ebit"), Column(row, "revenue"))
  }

  function EbitdaMargin(row: Row): Value
  {
    SafeDiv(Column(row, "ebitda"), Column(row, "revenue"))
  }

  function ReturnOnAssets(row: Row): Value
  {
    SafeDiv(Column(row, "net_income"), Column(row, "total_assets"))
  }

  function ReturnOnEquity(row: Row): Value
  {
    SafeDiv(Column(row, "net_income"), Column(row, "shareholders_equity"))
  }

  function CurrentRatio(row: Row): Value
  {
    SafeDiv(Column(row, "current_assets"), Column(row, "current_liabilities"))
  }

  function QuickRatio(row: Row): Value
  {
    SafeDiv(Minus(Column(row, "current_assets"), Column(row, "inventory")), Column(row, "current_liabilities"))
  }

  function DebtToEquity(row: Row): Value
  {
    SafeDiv(TotalDebt(row), Column(row, "shareholders_equity"))
  }

  function NetDebtToEbitda(row: Row): Value
  {
    SafeDiv(NetDebt(row), Column(row, "ebitda"))
  }

  function OcfMargin(row: Row): Value
  {
    SafeDiv(Column(row, "operating_cf"), Column(row, "revenue"))
  }

  function FreeCashFlow(row: Row): Value
  {
    Minus(Column(row, "operating_cf"), Magnitude(Column(row, "capex")))
  }

  function FcfMargin(row: Row): Value
  {
    SafeDiv(FreeCashFlow(row), Column(row, "revenue"))
  }

  function EvEbitda(row: Row): Value
  {
    SafeDiv(EnterpriseValue(row), Column(row, "ebitda"))
  }

  /** All derived columns of one row, in the order compute_metrics assigns them. */
  function DeriveRow(row: Row): Derived
  {
    Derived(
      MarketCap(row), NetDebt(row), EnterpriseValue(row),
      EbitMargin(row), EbitdaMargin(row), ReturnOnAssets(row), ReturnOnEquity(row),
      CurrentRatio(row), QuickRatio(row), DebtToEquity(row), NetDebtToEbitda(row),
      OcfMargin(row), FreeCashFlow(row), FcfMargin(row), EvEbitda(row))
  }

  /** Reads the derived columns back out of a row. */
  function ReadDerived(row: Row): Derived
  {
    Derived(
      NumberIn(row, "market_cap"), NumberIn(row, "net_debt"), NumberIn(row, "enterprise_value"),
      NumberIn(row, "ebit_margin"), NumberIn(row, "ebitda_margin"), NumberIn(row, "roa"), NumberIn(row, "roe"),
      NumberIn(row, "current_ratio"), NumberIn(row, "quick_ratio"),
      NumberIn(row, "debt_to_equity"), NumberIn(row, "net_debt_to_ebitda"),
      NumberIn(row, "ocf_margin"), NumberIn(row, "fcf"), NumberIn(row, "fcf_margin"), NumberIn(row, "ev_ebitda"))
  }

  /** The row as written into the copied frame: its own cells, then the derived columns on top. */
  function WithDerived(row: Row, d: Derived): Row
  {
    row
      ["market_cap" := AsCell(d.marketCap)]
      ["net_debt" := AsCell(d.netDebt)]
      ["enterprise_value" := AsCell(d.enterpriseValue)]
      ["ebit_margin" := AsCell(d.ebitMargin)]
      ["ebitda_margin" := AsCell(d.ebitdaMargin)]
      ["roa" := AsCell(d.roa)]
      ["roe" := AsCell(d.roe)]
      ["current_ratio" := AsCell(d.currentRatio)]
      ["quick_ratio" := AsCell(d.quickRatio)]
      ["debt_to_equity" := AsCell(d.debtToEquity)]
      ["net_debt_to_ebitda" := AsCell(d.netDebtToEbitda)]
      ["ocf_margin" := AsCell(d.ocfMargin)]
      ["fcf" := AsCell(d.fcf)]
      ["fcf_margin" := AsCell(d.fcfMargin)]
      ["ev_ebitda" := AsCell(d.evEbitda)]
  }

  lemma WithDerivedKeepsOwnCells(row: Row, d: Derived)
    ensures WithDerived(row, d).Keys == row.Keys + DerivedColumns
    ensures forall c :: c in row && c !in DerivedColumns ==> WithDerived(row, d)[c] == row[c]
  {
  }

  lemma ReadBackSize(row: Row, d: Derived)
    ensures NumberIn(WithDerived(row, d), "market_cap") == d.marketCap
    ensures NumberIn(WithDerived(row, d), "net_debt") == d.netDebt
    ensures NumberIn(WithDerived(row, d), "enterprise_value") == d.enterpriseValue
    ensures NumberIn(WithDerived(row, d), "ebit_margin") == d.ebitMargin
    ensures NumberIn(WithDerived(row, d), "ebitda_margin") == d.ebitdaMargin
  {
  }

  lemma ReadBackRatios(row: Row, d: Derived)
    ensures NumberIn(WithDerived(row, d), "roa") == d.roa
    ensures NumberIn(WithDerived(row, d), "roe") == d.roe
    ensures NumberIn(WithDerived(row, d), "current_ratio") == d.currentRatio
    ensures NumberIn(WithDerived(row, d), "quick_ratio") == d.quickRatio
    ensures NumberIn(WithDerived(row, d), "debt_to_equity") == d.debtToEquity
  {
  }

  lemma ReadBackCash(row: Row, d: Derived)
    ensures NumberIn(WithDerived(row, d), "net_debt_to_ebitda") == d.netDebtToEbitda
    ensures NumberIn(WithDerived(row, d), "ocf_margin") == d.ocfMargin
    ensures NumberIn(WithDerived(row, d), "fcf") == d.fcf
    ensures NumberIn(WithDerived(row, d), "fcf_margin") == d.fcfMargin
    ensures NumberIn(WithDerived(row, d), "ev_ebitda") == d.evEbitda
  {
  }

  /** Writing the derived values adds exactly the derived columns, keeps the others, and reads back unchanged. */
  lemma WrittenRows()
    ensures forall row, d {:trigger WithDerived(row, d)} ::
      && WithDerived(row, d).Keys == row.Keys + DerivedColumns
      && (forall c :: c in row && c !in DerivedColumns ==> WithDerived(row, d)[c] == row[c])
      && ReadDerived(WithDerived(row, d)) == d
  {
    forall row, d
      ensures WithDerived(row, d).Keys == row.Keys + DerivedColumns
      ensures forall c :: c in row && c !in DerivedColumns ==> WithDerived(row, d)[c] == row[c]
      ensures ReadDerived(WithDerived(row, d)) == d
    {
      WithDerivedKeepsOwnCells(row, d);
      ReadBackSize(row, d);
      ReadBackRatios(row, d);
      ReadBackCash(row, d);
    }
  }

  /**
   * The `safe_div` calls whose dividend can be the integer 0 that `df.get(name, 0)` returns:
   * the dividend's columns, all of which must be missing for that, and the divisor's column.
   * The other dividends (`net_debt`, `fcf`, `enterprise_value`) are always columns.
   */
  const Quotients: seq<(set<string>, string)> := [
    ({"ebit"}, "revenue"),
    ({"ebitda"}, "revenue"),
    ({"net_income"}, "total_assets"),
    ({"net_income"}, "shareholders_equity"),
    ({"current_assets"}, "current_liabilities"),
    ({"current_assets", "inventory"}, "current_liabilities"),
    ({"short_term_debt", "long_term_debt"}, "shareholders_equity"),
    ({"operating_cf"}, "revenue")
  ]

  /** All operand columns of the quotient are missing, so `a / b` is `0 / 0` on Python integers. */
  predicate OperandsMissing(columns: set<string>, q: (set<string>, string))
  {
    q.0 !! columns && q.1 !in columns
  }

  /** Some quotient divides the integer 0 by the integer 0 before `np.where` can guard it. */
  predicate DividesZeroByZero(columns: set<string>)
  {
    exists k :: 0 <= k < |Quotients| && OperandsMissing(columns, Quotients[k])
  }

  const ZeroDivision: string := "ZeroDivisionError: division by zero"

  /**
   * compute_metrics: it raises ZeroDivisionError when both operand columns of a ratio are
   * missing. Otherwise it gives a new table with the same rows in the same order, each
   * keeping its own cells in every column that is not derived, and holding the derived values.
   */
  function ComputeMetrics(t: Table): (r: Result<Table>)
    ensures r.Err? <==> DividesZeroByZero(t.columns)
    ensures r.Err? ==> r.error == ZeroDivision
    ensures r.Ok? ==>
      var out := r.value;
      && out.columns == t.columns + DerivedColumns
      && |out.rows| == |t.rows|
      && (forall i :: 0 <= i < |t.rows| ==> out.rows[i].Keys == t.rows[i].Keys + DerivedColumns)
      && (forall i, c :: 0 <= i < |t.rows| && c in t.rows[i] && c !in DerivedColumns ==>
            out.rows[i][c] == t.rows[i][c])
      && (forall i :: 0 <= i < |t.rows| ==> ReadDerived(out.rows[i]) == DeriveRow(t.rows[i]))
      && (WellFormed(t) ==> WellFormed(out))
  {
    WrittenRows();
    if DividesZeroByZero(t.columns) then Err(ZeroDivision)
    else Ok(Table(t.columns + DerivedColumns,
                  seq(|t.rows|, i requires 0 <= i < |t.rows| => WithDerived(t.rows[i], DeriveRow(t.rows[i])))))
  }

  /** A table with every divisor column never raises: each quotient has a divisor. */
  lemma DivisorsPresentCompute(t: Table)
    requires {"revenue", "total_assets", "shareholders_equity", "current_liabilities"} <= t.columns
    ensures ComputeMetrics(t).Ok?
  {
    forall k | 0 <= k < |Quotients|
      ensures !OperandsMissing(t.columns, Quotients[k])
    {
      assert Quotients[k].1 in {"revenue", "total_assets", "shareholders_equity", "current_liabilities"};
    }
  }

  /** The table of a batch in which every fetch failed raises: it has neither ebit nor revenue. */
  lemma AllFailedBatchRaises(rows: seq<Row>)
    ensures ComputeMetrics(Table({"ticker", "error", "shares_basic", "price"}, rows)) == Err(ZeroDivision)
  {
    assert OperandsMissing({"ticker", "error", "shares_basic", "price"}, Quotients[0]);
  }

  /** Market capitalisation is price times share count; a missing price or share column contributes 0. */
  lemma MarketCapIsPriceTimesShares(row: Row)
    ensures Column(row, "price").Val? && Column(row, "shares_basic").Val? ==>
      MarketCap(row) == Val(Column(row, "price").x * Column(row, "shares_basic").x)
    ensures "price" !in row && Column(row, "shares_basic").Val? ==> MarketCap(row) == Val(0.0)
    ensures "shares_basic" !in row && Column(row, "price").Val? ==> MarketCap(row) == Val(0.0)
    ensures MarketCap(row).NaN? <==> Column(row, "price").NaN? || Column(row, "shares_basic").NaN?
  {
    assert MarketCap(row) == Times(Column(row, "price"), Column(row, "shares_basic"));
  }

  /** Net debt is total debt less cash, and enterprise value is market cap plus net debt. */
  lemma EnterpriseValueDecomposes(row: Row)
    requires Column(row, "short_term_debt").Val? && Column(row, "long_term_debt").Val? && Column(row, "cash").Val?
    requires MarketCap(row).Val?
    ensures NetDebt(row) == Val(Column(row, "short_term_debt").x + Column(row, "long_term_debt").x - Column(row, "cash").x)
    ensures EnterpriseValue(row) == Val(MarketCap(row).x + NetDebt(row).x)
  {
  }

  /** Free cash flow never exceeds operating cash flow, and the FCF margin divides that FCF by revenue. */
  lemma FreeCashFlowAtMostOperatingCashFlow(row: Row)
    ensures FreeCashFlow(row).Val? <==> Column(row, "operating_cf").Val? && Column(row, "capex").Val?
    ensures FreeCashFlow(row).Val? ==> FreeCashFlow(row).x <= Column(row, "operating_cf").x
    ensures FcfMargin(row).Val? ==> FcfMargin(row).x * Column(row, "revenue").x == FreeCashFlow(row).x
  {
  }

  /**
   * The two EBITDA-denominated ratios are undefined exactly when EBITDA is within 1e-12
   * of zero, given a defined EBITDA and numerators; an absent ebitda column makes both undefined.
   */
  lemma EbitdaRatiosUndefinedIffEbitdaNearZero(row: Row)
    ensures "ebitda" !in row ==> NetDebtToEbitda(row).NaN? && EvEbitda(row).NaN?
    ensures Column(row, "ebitda").Val? && NetDebt(row).Val? ==>
      (NetDebtToEbitda(row).NaN? <==> Abs(Column(row, "ebitda").x) <= DivisionGuard)
    ensures Column(row, "ebitda").Val? && EnterpriseValue(row).Val? ==>
      (EvEbitda(row).NaN? <==> Abs(Column(row, "ebitda").x) <= DivisionGuard)
  {
  }

  lemma QuotientOrder(assets: real, inventory: real, liabilities: real)
    requires liabilities > 0.0 && inventory >= 0.0
    ensures (assets - inventory) / liabilities <= assets / liabilities
  {
    assert (assets - inventory) / liabilities == assets / liabilities - inventory / liabilities;
  }

  /** With positive current liabilities and non-negative inventory the quick ratio is at most the current ratio. */
  lemma QuickRatioAtMostCurrentRatio(row: Row)
    requires Column(row, "current_assets").Val? && Column(row, "inventory").Val?
    requires Column(row, "current_liabilities").Val?
    requires Column(row, "current_liabilities").x > DivisionGuard
    requires Column(row, "inventory").x >= 0.0
    ensures QuickRatio(row).Val? && CurrentRatio(row).Val?
    ensures QuickRatio(row).x <= CurrentRatio(row).x
  {
    QuotientOrder(Column(row, "current_assets").x, Column(row, "inventory").x, Column(row, "current_liabilities").x);
  }

  /** The first row of the two-company fixture. */
  function FixtureA(): Row
  {
    map["ticker" := Text("AAA"), "revenue" := Num(100.0), "ebit" := Num(10.0), "ebitda" := Num(20.0),
        "net_income" := Num(8.0), "total_assets" := Num(80.0), "shareholders_equity" := Num(40.0),
        "current_assets" := Num(30.0), "current_liabilities" := Num(20.0), "inventory" := Num(5.0),
        "operating_cf" := Num(12.0), "capex" := Num(-5.0), "short_term_debt" := Num(2.0),
        "long_term_debt" := Num(8.0), "cash" := Num(3.0), "shares_basic" := Num(10.0), "price" := Num(5.0)]
  }

  /** The second row of the two-company fixture. */
  function FixtureB(): Row
  {
    map["ticker" := Text("BBB"), "revenue" := Num(200.0), "ebit" := Num(30.0), "ebitda" := Num(40.0),
        "net_income" := Num(18.0), "total_assets" := Num(300.0), "shareholders_equity" := Num(150.0),
        "current_assets" := Num(60.0), "current_liabilities" := Num(50.0), "inventory" := Num(10.0),
        "operating_cf" := Num(36.0), "capex" := Num(-10.0), "short_term_debt" := Num(5.0),
        "long_term_debt" := Num(20.0), "cash" := Num(4.0), "shares_basic" := Num(20.0), "price" := Num(10.0)]
  }

  lemma FixtureARatios()
    ensures MarketCap(FixtureA()) == Val(50.0)
    ensures CurrentRatio(FixtureA()) == Val(1.5)
    ensures ReturnOnEquity(FixtureA()) == Val(0.2)
    ensures DebtToEquity(FixtureA()) == Val(0.25)
  {
    var a := FixtureA();
    assert Column(a, "price") == Val(5.0) && Column(a, "shares_basic") == Val(10.0);
    assert Column(a, "current_assets") == Val(30.0) && Column(a, "current_liabilities") == Val(20.0);
    assert Column(a, "net_income") == Val(8.0) && Column(a, "shareholders_equity") == Val(40.0);
    assert Column(a, "short_term_debt") == Val(2.0) && Column(a, "long_term_debt") == Val(8.0);
  }

  lemma FixtureBRatios()
    ensures MarketCap(FixtureB()) == Val(200.0)
    ensures CurrentRatio(FixtureB()) == Val(1.2)
    ensures ReturnOnEquity(FixtureB()) == Val(0.12)
    ensures DebtToEquity(FixtureB()) == Val(25.0 / 150.0)
  {
    var b := FixtureB();
    assert Column(b, "price") == Val(10.0) && Column(b, "shares_basic") == Val(20.0);
    assert Column(b, "current_assets") == Val(60.0) && Column(b, "current_liabilities") == Val(50.0);
    assert Column(b, "net_income") == Val(18.0) && Column(b, "shareholders_equity") == Val(150.0);
    assert Column(b, "short_term_debt") == Val(5.0) && Column(b, "long_term_debt") == Val(20.0);
  }

  /**
   * On the two-company fixture the metrics table has the ratio columns, market cap is
   * finite in every row (50 and 200), and the current ratios are 1.5 and 1.2.
   */
  lemma FixtureMetrics()
    ensures var r := ComputeMetrics(Table(FixtureA().Keys, [FixtureA(), FixtureB()]));
      r.Ok? &&
      var out := r.value;
      && "current_ratio" in out.columns && "debt_to_equity" in out.columns && |out.rows| == 2
      && ReadDerived(out.rows[0]).marketCap == Val(50.0) && ReadDerived(out.rows[1]).marketCap == Val(200.0)
      && ReadDerived(out.rows[0]).currentRatio == Val(1.5) && ReadDerived(out.rows[1]).currentRatio == Val(1.2)
      && ReadDerived(out.rows[0]).roe == Val(0.2) && ReadDerived(out.rows[1]).roe == Val(0.12)
  {
    var t := Table(FixtureA().Keys, [FixtureA(), FixtureB()]);
    DivisorsPresentCompute(t);
    FixtureARatios();
    FixtureBRatios();
    MetricsOfRow(t, 0);
    MetricsOfRow(t, 1);
  }

  /** The market cap, current ratio and return on equity read back from row i of the metrics table. */
  lemma MetricsOfRow(t: Table, i: nat)
    requires i < |t.rows|
    ensures ComputeMetrics(t).Ok? ==>
      var d := ReadDerived(ComputeMetrics(t).value.rows[i]);
      d.marketCap == MarketCap(t.rows[i]) && d.currentRatio == CurrentRatio(t.rows[i]) && d.roe == ReturnOnEquity(t.rows[i])
  {
    assert ComputeMetrics(t).Ok? ==> ReadDerived(ComputeMetrics(t).value.rows[i]) == DeriveRow(t.rows[i]);
  }
}
