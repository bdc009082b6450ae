/**
 * The row assembly of `fetch_fundamentals_and_price` and the batch loop of `fetch_bulk`
 * (src/ingest_sec.py). The SEC document, the price lookup and the single-ticker fetch
 * are parameters.
 */
module Fetch {
  import opened Wrappers
  import opened Frames
  import opened Text
  import opened Json
  import opened Tickers
  import opened TickerMap
  import opened Facts

  /**
   * A company-facts document: its `facts` member, and its top-level members read as a
   * facts member would be (an SEC document has no top-level taxonomy, so this is empty there).
   */
  datatype CompanyDoc = CompanyDoc(facts: FactsDoc, topLevel: FactsDoc)

  /** What the price lookup gives: a close and its date, or the fallback 1.0 with no date. */
  datatype Quote = Quote(close: real, asof: Option<string>)

  const Usd: seq<string> := ["USD"]

  /** The annual USD concepts fetched, with the column each one fills. */
  const Items: seq<(string, string)> := [
    ("Revenues", "revenue"),
    ("OperatingIncomeLoss", "ebit"),
    ("DepreciationAndAmortization", "da"),
    ("NetIncomeLoss", "net_income"),
    ("Assets", "total_assets"),
    ("Liabilities", "total_liabilities"),
    ("AssetsCurrent", "current_assets"),
    ("LiabilitiesCurrent", "current_liabilities"),
    ("InventoryNet", "inventory"),
    ("CashAndCashEquivalentsAtCarryingValue", "cash"),
    ("NetCashProvidedByUsedInOperatingActivities", "operating_cf"),
    ("PaymentsToAcquirePropertyPlantAndEquipment", "capex"),
    ("LongTermDebtNoncurrent", "long_term_debt"),
    ("LongTermDebtCurrent", "short_term_debt"),
    ("StockholdersEquity", "shareholders_equity")
  ]

  const ItemColumns: set<string> := {
    "revenue", "ebit", "da", "net_income", "total_assets", "total_liabilities", "current_assets",
    "current_liabilities", "inventory", "cash", "operating_cf", "capex", "long_term_debt",
    "short_term_debt", "shareholders_equity"
  }

  /** The latest annual USD value of each item's concept, in item order. */
  function ValuesOf(facts: FactsDoc, items: seq<(string, string)>): (gots: seq<Option<Dated>>)
    ensures |gots| == |items|
    ensures forall i :: 0 <= i < |items| ==> gots[i] == LatestAnnual(facts, items[i].0, Usd)
  {
    seq(|items|, i requires 0 <= i < |items| => LatestAnnual(facts, items[i].0, Usd))
  }

  function ItemValues(facts: FactsDoc): (gots: seq<Option<Dated>>)
    ensures |gots| == |Items|
  {
    ValuesOf(facts, Items)
  }

  /** The cells the item loop writes: each found value under its item's column. */
  function FoundCells(items: seq<(string, string)>, gots: seq<Option<Dated>>): (r: Row)
    requires |gots| == |items|
    ensures forall c :: c in r ==> r[c].Num?
  {
    if items == [] then map[]
    else
      var n := |items| - 1;
      var r := FoundCells(items[..n], gots[..n]);
      if gots[n].Some? then r[items[n].1 := Num(gots[n].value.1)] else r
  }

  /** `latest_fy`: -1 to start with, raised by each found value with a later fy. */
  function LatestFy(gots: seq<Option<Dated>>): int
  {
    if gots == [] then -1
    else
      var l := LatestFy(gots[..|gots| - 1]);
      var got := gots[|gots| - 1];
      if got.Some? && got.value.0 > l then got.value.0 else l
  }

  /** The columns the rest of the assembly writes. */
  const OtherColumns: set<string> := {"ticker", "ebitda", "shares_basic", "price", "price_asof", "fy"}

  lemma ColumnsApart()
    ensures forall i :: 0 <= i < |Items| ==> Items[i].1 in ItemColumns
    ensures ItemColumns !! OtherColumns
  {
  }

  /** The found cells are under item columns. */
  lemma FoundKeys(gots: seq<Option<Dated>>)
    requires |gots| == |Items|
    ensures FoundCells(Items, gots).Keys <= ItemColumns
  {
    ColumnsApart();
    forall c | c in FoundCells(Items, gots)
      ensures c in ItemColumns
    {
      FoundCellsSpec(Items, gots, c);
    }
  }

  /** The row before ebitda, shares, price and fy: the ticker and the found items. */
  function Fundamentals(ticker: string, gots: seq<Option<Dated>>): (row: Row)
    requires |gots| == |Items|
    ensures row.Keys <= ItemColumns + {"ticker"}
    ensures "ticker" in row && row["ticker"] == Text(ticker)
    ensures forall c :: c in row && c != "ticker" ==> row[c].Num?
  {
    FoundKeys(gots);
    ColumnsApart();
    assert "ticker" in OtherColumns;
    map["ticker" := Text(ticker)] + FoundCells(Items, gots)
  }

  /**
   * The row of lines 155-181 for the SEC spelling `ticker`, the items' values, the chosen
   * shares and the quote: the found items; ebitda when both ebit and da were found;
   * shares_basic when shares were found; price and price_asof; fy when positive.
   */
  function AssembledFrom(ticker: string, gots: seq<Option<Dated>>, shares: Option<Dated>, quote: Quote): Row
    requires |gots| == |Items|
  {
    WithFy(WithQuote(WithShares(WithEbitda(Fundamentals(ticker, gots)), shares), quote), LatestFy(gots))
  }

  /** Lines 166-167: ebitda is ebit plus da when both are there. */
  function WithEbitda(row: Row): Row
    requires forall c :: c in row && c != "ticker" ==> row[c].Num?
  {
    if "ebit" in row && "da" in row then row["ebitda" := Num(row["ebit"].r + row["da"].r)] else row
  }

  /** Lines 172-173. */
  function WithShares(row: Row, shares: Option<Dated>): Row
  {
    if shares.Some? then row["shares_basic" := Num(shares.value.1)] else row
  }

  /** Lines 176-178. */
  function WithQuote(row: Row, quote: Quote): Row
  {
    row["price" := Num(quote.close)]["price_asof" := if quote.asof.Some? then Text(quote.asof.value) else Null]
  }

  /** Lines 180-181. */
  function WithFy(row: Row, fy: int): Row
  {
    if fy > 0 then row["fy" := Num(fy as real)] else row
  }

  /** The row for a ticker, its `facts` member, the document its shares are read from, and the quote. */
  function Assembled(ticker: string, facts: FactsDoc, sharesDoc: FactsDoc, quote: Quote): Row
  {
    AssembledFrom(Sec(ticker), ItemValues(facts), Shares(sharesDoc), quote)
  }

  /** The loop of lines 157-163: each found item's value written into the row, and `latest_fy`. */
  method WriteItems(start: Row, facts: FactsDoc, items: seq<(string, string)>) returns (row: Row, latest: int)
    ensures row == start + FoundCells(items, ValuesOf(facts, items))
    ensures latest == LatestFy(ValuesOf(facts, items))
  {
    var gots := ValuesOf(facts, items);
    row := start;
    latest := -1;
    for i := 0 to |items|
      invariant row == start + FoundCells(items[..i], gots[..i])
      invariant latest == LatestFy(gots[..i])
    {
      ItemStep(items, gots, i);
      var got := ExtractLatestAnnualValue(facts, items[i].0, Usd);
      if got.Some? {
        UnionUpdate(start, FoundCells(items[..i], gots[..i]), items[i].1, Num(got.value.1));
        row := row[items[i].1 := Num(got.value.1)];
        if got.value.0 > latest {
          latest := got.value.0;
        }
      }
    }
    assert items[..|items|] == items;
    assert gots[..|items|] == gots;
  }

  /** One more item: its value, if found, is written under its column, and may raise `latest_fy`. */
  lemma ItemStep(items: seq<(string, string)>, gots: seq<Option<Dated>>, i: nat)
    requires |gots| == |items| && i < |items|
    ensures FoundCells(items[..i + 1], gots[..i + 1])
      == if gots[i].Some? then FoundCells(items[..i], gots[..i])[items[i].1 := Num(gots[i].value.1)]
         else FoundCells(items[..i], gots[..i])
    ensures LatestFy(gots[..i + 1])
      == if gots[i].Some? && gots[i].value.0 > LatestFy(gots[..i]) then gots[i].value.0 else LatestFy(gots[..i])
  {
    assert items[..i + 1][..i] == items[..i];
    assert gots[..i + 1][..i] == gots[..i];
  }

  lemma UnionUpdate(a: Row, b: Row, k: string, v: Cell)
    ensures (a + b)[k := v] == a + b[k := v]
  {
  }

  /** Lines 155-181, step by step on a dictionary and `latest_fy`. */
  method AssembleRow(ticker: string, facts: FactsDoc, sharesDoc: FactsDoc, quote: Quote) returns (row: Row)
    ensures row == Assembled(ticker, facts, sharesDoc, quote)
  {
    var latest;
    row, latest := WriteItems(map["ticker" := Text(Sec(ticker))], facts, Items);
    assert row == Fundamentals(Sec(ticker), ItemValues(facts));
    row := CompleteRow(row, latest, sharesDoc, quote);
  }

  /** Lines 165-181: ebitda, shares, price and fy written into the row of found items. */
  method CompleteRow(start: Row, latest: int, sharesDoc: FactsDoc, quote: Quote) returns (row: Row)
    requires forall c :: c in start && c != "ticker" ==> start[c].Num?
    ensures row == WithFy(WithQuote(WithShares(WithEbitda(start), Shares(sharesDoc)), quote), latest)
  {
    row := start;
    if "ebit" in row && "da" in row {
      row := row["ebitda" := Num(row["ebit"].r + row["da"].r)];
    }
    ghost var step := WithEbitda(start);
    assert row == step;
    var shares := ChooseShares(sharesDoc);
    if shares.Some? {
      row := row["shares_basic" := Num(shares.value.1)];
    }
    step := WithShares(step, shares);
    assert row == step;
    row := row["price" := Num(quote.close)];
    row := row["price_asof" := if quote.asof.Some? then Text(quote.asof.value) else Null];
    step := WithQuote(step, quote);
    assert row == step;
    if latest > 0 {
      row := row["fy" := Num(latest as real)];
    }
  }

  /** Lines 169-171: the instant share count, else the duration one. */
  method ChooseShares(doc: FactsDoc) returns (shares: Option<Dated>)
    ensures shares == Shares(doc)
  {
    shares := LatestShares(doc, InstantCandidates);
    if shares.None? {
      shares := LatestShares(doc, DurationCandidates);
    }
  }

  /** A column holds a value exactly when some item with that column was found; the last such wins. */
  lemma FoundCellsSpec(items: seq<(string, string)>, gots: seq<Option<Dated>>, c: string)
    requires |gots| == |items|
    ensures c in FoundCells(items, gots) <==> exists i :: 0 <= i < |items| && items[i].1 == c && gots[i].Some?
    ensures c in FoundCells(items, gots) ==> exists i :: (0 <= i < |items| && items[i].1 == c && gots[i].Some?
      && FoundCells(items, gots)[c] == Num(gots[i].value.1)
      && forall j :: i < j < |items| && items[j].1 == c ==> gots[j].None?)
  {
    FoundCellsHas(items, gots, c);
    if c in FoundCells(items, gots) {
      FoundCellsLastWins(items, gots, c);
      var i :| LastFound(items, gots, c, i) && FoundCells(items, gots)[c] == Num(gots[i].value.1);
    }
  }

  lemma {:induction false} FoundCellsHas(items: seq<(string, string)>, gots: seq<Option<Dated>>, c: string)
    requires |gots| == |items|
    ensures c in FoundCells(items, gots) <==> exists i :: 0 <= i < |items| && items[i].1 == c && gots[i].Some?
  {
    if items != [] {
      var n := |items| - 1;
      var init, ginit := items[..n], gots[..n];
      FoundCellsHas(init, ginit, c);
      assert forall i :: 0 <= i < n ==> items[i] == init[i] && gots[i] == ginit[i];
    }
  }

  /** Item i is found under column c, and no later item with column c is. */
  predicate LastFound(items: seq<(string, string)>, gots: seq<Option<Dated>>, c: string, i: int)
  {
    0 <= i < |items| == |gots| && items[i].1 == c && gots[i].Some?
    && forall j :: i < j < |items| && items[j].1 == c ==> gots[j].None?
  }

  lemma {:induction false} FoundCellsLastWins(items: seq<(string, string)>, gots: seq<Option<Dated>>, c: string)
    requires |gots| == |items| && c in FoundCells(items, gots)
    ensures exists i :: LastFound(items, gots, c, i) && FoundCells(items, gots)[c] == Num(gots[i].value.1)
  {
    var n := |items| - 1;
    var init, ginit := items[..n], gots[..n];
    if items[n].1 == c && gots[n].Some? {
      assert LastFound(items, gots, c, n);
    } else {
      FoundCellsLastWins(init, ginit, c);
      var i :| LastFound(init, ginit, c, i) && FoundCells(init, ginit)[c] == Num(ginit[i].value.1);
      assert items[i] == init[i] && gots[i] == ginit[i];
      forall j | i < j < |items| && items[j].1 == c
        ensures gots[j].None?
      {
        if j < n {
          assert items[j] == init[j] && gots[j] == ginit[j];
        }
      }
      assert LastFound(items, gots, c, i);
    }
  }

  /** `latest_fy` is the largest fy of the found values, or -1 when none has one above -1. */
  lemma {:induction false} LatestFyIsMax(gots: seq<Option<Dated>>)
    ensures LatestFy(gots) >= -1
    ensures forall i :: 0 <= i < |gots| && gots[i].Some? ==> gots[i].value.0 <= LatestFy(gots)
    ensures LatestFy(gots) == -1 || exists i :: 0 <= i < |gots| && gots[i].Some? && gots[i].value.0 == LatestFy(gots)
  {
    if gots != [] {
      var init := gots[..|gots| - 1];
      LatestFyIsMax(init);
      var l := LatestFy(init);
      assert forall i :: 0 <= i < |init| ==> gots[i] == init[i];
      if l != -1 && LatestFy(gots) == l {
        var i :| 0 <= i < |init| && init[i].Some? && init[i].value.0 == l;
        assert gots[i] == init[i];
      }
    }
  }

  /** No two items fill the same column. */
  lemma ItemColumnsDistinct()
    ensures forall i, j :: 0 <= i < j < |Items| ==> Items[i].1 != Items[j].1
  {
  }

  /** Each item's column holds its value when found and is absent otherwise. */
  lemma AssembledItems(ticker: string, gots: seq<Option<Dated>>, shares: Option<Dated>, quote: Quote, i: nat)
    requires |gots| == |Items| && i < |Items|
    ensures var row := AssembledFrom(ticker, gots, shares, quote);
      (Items[i].1 in row <==> gots[i].Some?) && (gots[i].Some? ==> row[Items[i].1] == Num(gots[i].value.1))
  {
    var c := Items[i].1;
    ColumnsApart();
    ItemColumnsDistinct();
    FoundCellsSpec(Items, gots, c);
    assert c in ItemColumns && c !in OtherColumns;
    ItemCellKept(Fundamentals(ticker, gots), shares, quote, LatestFy(gots), c);
  }

  /** The steps after the item loop leave every column outside the ones they write alone. */
  lemma ItemCellKept(r: Row, shares: Option<Dated>, quote: Quote, fy: int, c: string)
    requires forall c :: c in r && c != "ticker" ==> r[c].Num?
    requires c !in OtherColumns
    ensures var row := WithFy(WithQuote(WithShares(WithEbitda(r), shares), quote), fy);
      (c in row <==> c in r) && (c in r ==> row[c] == r[c])
  {
  }

  /** ebitda is present exactly when ebit and da both are, and is then their sum. */
  lemma AssembledEbitda(ticker: string, gots: seq<Option<Dated>>, shares: Option<Dated>, quote: Quote)
    requires |gots| == |Items|
    ensures var row := AssembledFrom(ticker, gots, shares, quote);
      ("ebitda" in row <==> "ebit" in row && "da" in row)
      && ("ebitda" in row ==> row["ebit"].Num? && row["da"].Num? && row["ebitda"] == Num(row["ebit"].r + row["da"].r))
  {
    ColumnsApart();
    assert "ebitda" in OtherColumns;
  }

  /** fy is the largest fy among the found values, and is left out when none is positive. */
  lemma AssembledFy(ticker: string, gots: seq<Option<Dated>>, shares: Option<Dated>, quote: Quote)
    requires |gots| == |Items|
    ensures var row := AssembledFrom(ticker, gots, shares, quote);
      "fy" in row <==> exists i :: 0 <= i < |gots| && gots[i].Some? && gots[i].value.0 > 0
    ensures var row := AssembledFrom(ticker, gots, shares, quote);
      "fy" in row ==> (row["fy"] == Num(LatestFy(gots) as real)
        && (forall i :: 0 <= i < |gots| && gots[i].Some? ==> gots[i].value.0 <= LatestFy(gots))
        && (exists i :: 0 <= i < |gots| && gots[i].Some? && gots[i].value.0 == LatestFy(gots)))
  {
    AssembledFyCell(ticker, gots, shares, quote);
    LatestFyIsMax(gots);
  }

  /** fy is written last, exactly when `latest_fy` is positive. */
  lemma AssembledFyCell(ticker: string, gots: seq<Option<Dated>>, shares: Option<Dated>, quote: Quote)
    requires |gots| == |Items|
    ensures var row := AssembledFrom(ticker, gots, shares, quote);
      ("fy" in row <==> LatestFy(gots) > 0) && ("fy" in row ==> row["fy"] == Num(LatestFy(gots) as real))
  {
    var f := Fundamentals(ticker, gots);
    FyWrittenLast();
    assert "fy" !in f;
    FyAfter(f, shares, quote, LatestFy(gots));
  }

  /** Over any row without fy, the last step writes fy exactly when it is positive. */
  lemma FyAfter(r: Row, shares: Option<Dated>, quote: Quote, fy: int)
    requires forall c :: c in r && c != "ticker" ==> r[c].Num?
    requires "fy" !in r
    ensures var row := WithFy(WithQuote(WithShares(WithEbitda(r), shares), quote), fy);
      ("fy" in row <==> fy > 0) && ("fy" in row ==> row["fy"] == Num(fy as real))
  {
    FyWrittenLast();
  }

  /** No earlier step writes fy. */
  lemma FyWrittenLast()
    ensures "fy" !in ItemColumns + {"ticker"}
    ensures "fy" != "ebitda" && "fy" != "shares_basic" && "fy" != "price" && "fy" != "price_asof"
  {
  }

  /** shares_basic is present exactly when shares were found, and holds their value. */
  lemma AssembledShares(ticker: string, gots: seq<Option<Dated>>, shares: Option<Dated>, quote: Quote)
    requires |gots| == |Items|
    ensures var row := AssembledFrom(ticker, gots, shares, quote);
      ("shares_basic" in row <==> shares.Some?) && (shares.Some? ==> row["shares_basic"] == Num(shares.value.1))
  {
    ColumnsApart();
    assert "shares_basic" in OtherColumns;
  }

  /** The row's ticker is the given SEC spelling, and price and price_asof are the quote's. */
  lemma AssembledQuote(ticker: string, gots: seq<Option<Dated>>, shares: Option<Dated>, quote: Quote)
    requires |gots| == |Items|
    ensures var row := AssembledFrom(ticker, gots, shares, quote);
      "ticker" in row && row["ticker"] == Text(ticker) && "price" in row && row["price"] == Num(quote.close)
      && "price_asof" in row && row["price_asof"] == (if quote.asof.Some? then Text(quote.asof.value) else Null)
  {
  }

  /**
   * `fetch_fundamentals_and_price`, with the SEC ticker map, the company-facts download and
   * the price lookup (on the Yahoo spelling) as parameters. As on line 169, the shares are
   * looked up in the document's top level rather than in its `facts` member, so they are
   * lost (SharesLostAsWritten); AssembledCorrected is the row with the lookup in `facts`.
   */
  method FetchFundamentals(ticker: string, tickerMap: map<string, string>,
                           companyFacts: string -> Result<CompanyDoc>, quote: string -> Quote)
    returns (r: Result<Row>)
    ensures ResolveCik(ticker, tickerMap).Err? ==> r == Err(NotFound(ticker))
    ensures ResolveCik(ticker, tickerMap).Ok? && companyFacts(ResolveCik(ticker, tickerMap).value).Err? ==>
      r == Err(companyFacts(ResolveCik(ticker, tickerMap).value).error)
    ensures ResolveCik(ticker, tickerMap).Ok? && companyFacts(ResolveCik(ticker, tickerMap).value).Ok? ==>
      var doc := companyFacts(ResolveCik(ticker, tickerMap).value).value;
      r == Ok(Assembled(ticker, doc.facts, doc.topLevel, quote(Yf(ticker))))
  {
    var cik := ResolveCik(ticker, tickerMap);
    if cik.Err? {
      return Err(cik.error);
    }
    var comp := companyFacts(cik.value);
    if comp.Err? {
      return Err(comp.error);
    }
    var row := AssembleRow(ticker, comp.value.facts, comp.value.topLevel, quote(Yf(ticker)));
    r := Ok(row);
  }

  /** Without a `us-gaap` taxonomy no share candidate gives a value. */
  lemma NoSharesWithoutTaxonomy(doc: FactsDoc)
    requires "us-gaap" !in doc
    ensures Shares(doc).None?
  {
    SharesSpec(doc);
    forall i | 0 <= i < |InstantCandidates|
      ensures LatestAnnual(doc, InstantCandidates[i], ShareUnits).None?
    {
      assert Concept(doc, InstantCandidates[i]) == map[];
    }
    forall i | 0 <= i < |DurationCandidates|
      ensures LatestAnnual(doc, DurationCandidates[i], ShareUnits).None?
    {
      assert Concept(doc, DurationCandidates[i]) == map[];
    }
  }

  /** As written: a document without a top-level `us-gaap` member never yields shares_basic. */
  lemma SharesLostAsWritten(ticker: string, doc: CompanyDoc, quote: Quote)
    requires "us-gaap" !in doc.topLevel
    ensures "shares_basic" !in Assembled(ticker, doc.facts, doc.topLevel, quote)
  {
    NoSharesWithoutTaxonomy(doc.topLevel);
    AssembledShares(Sec(ticker), ItemValues(doc.facts), Shares(doc.topLevel), quote);
  }

  /** A filing with one 10-K share count, for fiscal year 2023. */
  function ShareFiling(): FactsDoc
  {
    map["us-gaap" := map["CommonStockSharesOutstanding" := map["shares" := [ShareItem()]]]]
  }

  function ShareItem(): Item
  {
    map["form" := JStr("10-K"), "fy" := JInt(2023), "val" := JInt(1000)]
  }

  /** The filing's shares are found in it, yet the document the SEC serves for it gives a row without shares_basic. */
  lemma SharesLostExample()
    ensures Shares(ShareFiling()) == Some((2023, 1000.0))
    ensures "shares_basic" !in Assembled("ACME", ShareFiling(), map[], Quote(1.0, None))
  {
    var facts := ShareFiling();
    ShareFilingValue();
    var gots := CandidateValues(facts, InstantCandidates);
    assert gots[0] == Some((2023, 1000.0));
    assert Concept(facts, InstantCandidates[1]) == map[];
    assert gots[1] == None;
    assert gots[..1] == [gots[0]];
    assert BestOf(gots[..1]) == Some((2023, 1000.0)) by {
      assert gots[..1][..0] == [];
    }
    assert gots[..2][..1] == gots[..1];
    assert gots[..2] == gots;
    SharesLostAsWritten("ACME", CompanyDoc(facts, map[]), Quote(1.0, None));
  }

  lemma ShareFilingValue()
    ensures LatestAnnual(ShareFiling(), "CommonStockSharesOutstanding", ShareUnits) == Some((2023, 1000.0))
  {
    var item := ShareItem();
    assert Annual(item) == Some((2023, 1000.0));
    assert AnnualsOf([item]) == [(2023, 1000.0)] by {
      assert [item][..0] == [];
    }
    var series := Concept(ShareFiling(), "CommonStockSharesOutstanding");
    assert ItemsIn(series, "shares") == [item];
    assert Collected(series, ShareUnits) == [(2023, 1000.0)] by {
      assert ShareUnits[..0] == [];
    }
  }

  /** The evidently intended row: shares read from the `facts` member, like every other concept. */
  function AssembledCorrected(ticker: string, doc: CompanyDoc, quote: Quote): (row: Row)
    ensures "shares_basic" in row <==> Shares(doc.facts).Some?
    ensures Shares(doc.facts).Some? ==> row["shares_basic"] == Num(Shares(doc.facts).value.1)
  {
    AssembledShares(Sec(ticker), ItemValues(doc.facts), Shares(doc.facts), quote);
    Assembled(ticker, doc.facts, doc.facts, quote)
  }

  // ---- fetch_bulk ----

  /** What one attempted ticker leaves: a fetched row under its upper-cased key, or a failure. */
  datatype Outcome = Fetched(key: string, row: Row) | Failed(ticker: string, message: string)

  /** The degraded row of a failed fetch. */
  function ErrorRow(ticker: string, message: string): Row
  {
    map["ticker" := Text(Upper(ticker)), "error" := Text(message)]
  }

  function RowOf(o: Outcome): Row
  {
    match o
    case Fetched(_, row) => row
    case Failed(t, e) => ErrorRow(t, e)
  }

  /** `frames`: one row per outcome. */
  function RowsOf(os: seq<Outcome>): (rows: seq<Row>)
    ensures |rows| == |os| && forall i :: 0 <= i < |os| ==> rows[i] == RowOf(os[i])
  {
    seq(|os|, i requires 0 <= i < |os| => RowOf(os[i]))
  }

  lemma RowsOfAppend(os: seq<Outcome>, o: Outcome)
    ensures RowsOf(os + [o]) == RowsOf(os) + [RowOf(o)]
  {
    assert forall i :: 0 <= i < |os| ==> (os + [o])[i] == os[i];
  }

  /** `seen`: the keys of the fetched outcomes. */
  function SeenOf(os: seq<Outcome>): set<string>
  {
    set i | 0 <= i < |os| && os[i].Fetched? :: os[i].key
  }

  lemma SeenOfAppend(os: seq<Outcome>, o: Outcome)
    ensures SeenOf(os + [o]) == SeenOf(os) + (if o.Fetched? then {o.key} else {})
  {
    var os' := os + [o];
    forall k | k in SeenOf(os')
      ensures k in SeenOf(os) + (if o.Fetched? then {o.key} else {})
    {
      var i :| 0 <= i < |os'| && os'[i].Fetched? && os'[i].key == k;
      if i < |os| {
        assert os[i] == os'[i];
      }
    }
    forall k | k in SeenOf(os)
      ensures k in SeenOf(os')
    {
      var i :| 0 <= i < |os| && os[i].Fetched? && os[i].key == k;
      assert os'[i] == os[i];
    }
    if o.Fetched? {
      assert os'[|os|] == o;
    }
  }

  /** One pass of the loop body for ticker t. */
  function Visit(os: seq<Outcome>, t: string, fetch: string -> Result<Row>): seq<Outcome>
  {
    var s := Strip(t);
    if s == [] || Upper(s) in SeenOf(os) then os
    else
      match fetch(s)
      case Ok(row) => os + [Fetched(Upper(s), row)]
      case Err(e) => os + [Failed(s, e)]
  }

  /** The outcomes of the loop over the tickers, in order. */
  function Outcomes(ts: seq<string>, fetch: string -> Result<Row>): seq<Outcome>
  {
    if ts == [] then [] else Visit(Outcomes(ts[..|ts| - 1], fetch), ts[|ts| - 1], fetch)
  }

  /** The column names of the rows, in any order. */
  function ColumnsOf(rows: seq<Row>): (cols: set<string>)
    ensures forall c :: c in cols <==> exists i :: 0 <= i < |rows| && c in rows[i]
  {
    if rows == [] then {}
    else
      var init := rows[..|rows| - 1];
      var cols := ColumnsOf(init) + rows[|rows| - 1].Keys;
      assert forall i :: 0 <= i < |init| ==> init[i] == rows[i];
      cols
  }

  /** A row of `pd.concat`: every column of the result, missing where the row had none. */
  function Pad(row: Row, cols: set<string>): (r: Row)
    ensures r.Keys == cols
    ensures forall c :: c in cols ==> r[c] == if c in row then row[c] else Null
  {
    map c | c in cols :: if c in row then row[c] else Null
  }

  function Concat(rows: seq<Row>): (t: Table)
    ensures WellFormed(t) && t.columns == ColumnsOf(rows) && |t.rows| == |rows|
  {
    var cols := ColumnsOf(rows);
    Table(cols, seq(|rows|, i requires 0 <= i < |rows| => Pad(rows[i], cols)))
  }

  /** `df[c] = 1.0` when the table has no column c. */
  function WithDefault(t: Table, c: string): (r: Table)
    requires WellFormed(t)
    ensures WellFormed(r) && r.columns == t.columns + {c} && |r.rows| == |t.rows|
  {
    if c in t.columns then t
    else Table(t.columns + {c}, seq(|t.rows|, i requires 0 <= i < |t.rows| => t.rows[i][c := Num(1.0)]))
  }

  const Defaults: seq<string> := ["shares_basic", "price"]

  /** The table after the default loop over the columns cs. */
  function Defaulted(t: Table, cs: seq<string>): (r: Table)
    requires WellFormed(t)
    ensures WellFormed(r) && |r.rows| == |t.rows|
    ensures forall c :: c in r.columns <==> c in t.columns || c in cs
  {
    if cs == [] then t else WithDefault(Defaulted(t, cs[..|cs| - 1]), cs[|cs| - 1])
  }

  /** The table `fetch_bulk` returns. */
  function Bulk(ts: seq<string>, fetch: string -> Result<Row>): Table
  {
    var frames := RowsOf(Outcomes(ts, fetch));
    if frames == [] then Table({}, []) else Defaulted(Concat(frames), Defaults)
  }

  /** `fetch_bulk`, with the single-ticker fetch as a parameter. */
  method FetchBulk(tickers: seq<string>, fetch: string -> Result<Row>) returns (df: Table)
    ensures df == Bulk(tickers, fetch)
  {
    var frames := CollectFrames(tickers, fetch);
    if frames == [] {
      return Table({}, []);
    }
    df := FillDefaults(Concat(frames), Defaults);
  }

  /** The loop of `fetch_bulk`: one frame per new non-blank ticker, in order. */
  method CollectFrames(tickers: seq<string>, fetch: string -> Result<Row>) returns (frames: seq<Row>)
    ensures frames == RowsOf(Outcomes(tickers, fetch))
  {
    frames := [];
    var seen: set<string> := {};
    ghost var os: seq<Outcome> := [];
    for i := 0 to |tickers|
      invariant os == Outcomes(tickers[..i], fetch)
      invariant frames == RowsOf(os)
      invariant seen == SeenOf(os)
    {
      OutcomesStep(tickers, i, fetch);
      frames, seen := VisitTicker(frames, seen, tickers[i], fetch, os);
      os := Visit(os, tickers[i], fetch);
    }
    assert tickers[..|tickers|] == tickers;
  }

  /** One pass of the loop: skip a blank or seen ticker, else fetch it and add its frame. */
  method VisitTicker(frames: seq<Row>, seen: set<string>, ticker: string, fetch: string -> Result<Row>, ghost os: seq<Outcome>)
    returns (frames': seq<Row>, seen': set<string>)
    requires frames == RowsOf(os) && seen == SeenOf(os)
    ensures frames' == RowsOf(Visit(os, ticker, fetch)) && seen' == SeenOf(Visit(os, ticker, fetch))
  {
    var t := Strip(ticker);
    if t == [] || Upper(t) in seen {
      VisitSkips(os, ticker, fetch);
      return frames, seen;
    }
    VisitAdds(os, ticker, fetch);
    ghost var o := NewOutcome(ticker, fetch);
    SeenOfAppend(os, o);
    RowsOfAppend(os, o);
    var got := fetch(t);
    if got.Ok? {
      frames' := frames + [got.value];
      seen' := seen + {Upper(t)};
    } else {
      frames' := frames + [ErrorRow(t, got.error)];
      seen' := seen;
    }
  }

  lemma OutcomesStep(ts: seq<string>, i: nat, fetch: string -> Result<Row>)
    requires i < |ts|
    ensures Outcomes(ts[..i + 1], fetch) == Visit(Outcomes(ts[..i], fetch), ts[i], fetch)
  {
    assert ts[..i + 1][..i] == ts[..i];
  }

  lemma VisitSkips(os: seq<Outcome>, t: string, fetch: string -> Result<Row>)
    requires Strip(t) == [] || Upper(Strip(t)) in SeenOf(os)
    ensures Visit(os, t, fetch) == os
  {
  }

  lemma VisitAdds(os: seq<Outcome>, t: string, fetch: string -> Result<Row>)
    requires Strip(t) != [] && Upper(Strip(t)) !in SeenOf(os)
    ensures Visit(os, t, fetch) == os + [NewOutcome(t, fetch)]
  {
  }

  /** The default loop of `fetch_bulk`: `df[c] = 1.0` for each column c of cs the table lacks. */
  method FillDefaults(t: Table, cs: seq<string>) returns (df: Table)
    requires WellFormed(t)
    ensures df == Defaulted(t, cs)
  {
    df := t;
    for k := 0 to |cs|
      invariant df == Defaulted(t, cs[..k])
    {
      assert cs[..k + 1][..k] == cs[..k];
      if cs[k] !in df.columns {
        df := Table(df.columns + {cs[k]}, seq(|df.rows|, i requires 0 <= i < |df.rows| => df.rows[i][cs[k] := Num(1.0)]));
      }
    }
    assert cs[..|cs|] == cs;
  }

  // ---- what the batch loop promises ----

  /** A blank ticker, or one whose upper-cased form was already fetched, leaves the loop as it was. */
  lemma SkipsBlankAndSeen(ts: seq<string>, t: string, fetch: string -> Result<Row>)
    requires Strip(t) == [] || exists i :: (0 <= i < |Outcomes(ts, fetch)|
      && Outcomes(ts, fetch)[i].Fetched? && Outcomes(ts, fetch)[i].key == Upper(Strip(t)))
    ensures Outcomes(ts + [t], fetch) == Outcomes(ts, fetch)
  {
    VisitLast(ts, t, fetch);
  }

  lemma VisitLast(ts: seq<string>, t: string, fetch: string -> Result<Row>)
    ensures Outcomes(ts + [t], fetch) == Visit(Outcomes(ts, fetch), t, fetch)
  {
    assert (ts + [t])[..|ts|] == ts;
  }

  /** A new ticker that fetches adds its row under its upper-cased key and marks the key seen. */
  lemma SuccessAdds(ts: seq<string>, t: string, fetch: string -> Result<Row>)
    requires Strip(t) != [] && Upper(Strip(t)) !in SeenOf(Outcomes(ts, fetch)) && fetch(Strip(t)).Ok?
    ensures Outcomes(ts + [t], fetch) == Outcomes(ts, fetch) + [Fetched(Upper(Strip(t)), fetch(Strip(t)).value)]
    ensures SeenOf(Outcomes(ts + [t], fetch)) == SeenOf(Outcomes(ts, fetch)) + {Upper(Strip(t))}
  {
    VisitLast(ts, t, fetch);
    SeenOfAppend(Outcomes(ts, fetch), Fetched(Upper(Strip(t)), fetch(Strip(t)).value));
  }

  /** A new ticker that fails adds its degraded row and is not marked seen. */
  lemma FailureAdds(ts: seq<string>, t: string, fetch: string -> Result<Row>)
    requires Strip(t) != [] && Upper(Strip(t)) !in SeenOf(Outcomes(ts, fetch)) && fetch(Strip(t)).Err?
    ensures Outcomes(ts + [t], fetch) == Outcomes(ts, fetch) + [Failed(Strip(t), fetch(Strip(t)).error)]
    ensures SeenOf(Outcomes(ts + [t], fetch)) == SeenOf(Outcomes(ts, fetch))
  {
    VisitLast(ts, t, fetch);
    SeenOfAppend(Outcomes(ts, fetch), Failed(Strip(t), fetch(Strip(t)).error));
  }

  /** So a failing ticker given twice is tried twice, and leaves two degraded rows. */
  lemma FailureRetried(ts: seq<string>, t: string, fetch: string -> Result<Row>)
    requires Strip(t) != [] && Upper(Strip(t)) !in SeenOf(Outcomes(ts, fetch)) && fetch(Strip(t)).Err?
    ensures var failed := Failed(Strip(t), fetch(Strip(t)).error);
      Outcomes(ts + [t] + [t], fetch) == Outcomes(ts, fetch) + [failed] + [failed]
  {
    FailureAdds(ts, t, fetch);
    FailureAdds(ts + [t], t, fetch);
  }

  /** No more outcomes than tickers. */
  lemma {:induction false} OutcomesBound(ts: seq<string>, fetch: string -> Result<Row>)
    ensures |Outcomes(ts, fetch)| <= |ts|
  {
    if ts != [] {
      var init := ts[..|ts| - 1];
      OutcomesBound(init, fetch);
      VisitShape(Outcomes(init, fetch), ts[|ts| - 1], fetch);
    }
  }

  /** A visit keeps the outcomes, or adds the one outcome of a new non-blank ticker. */
  lemma VisitShape(os: seq<Outcome>, t: string, fetch: string -> Result<Row>)
    ensures var v := Visit(os, t, fetch);
      v == os || (Strip(t) != [] && Upper(Strip(t)) !in SeenOf(os) && v == os + [NewOutcome(t, fetch)])
  {
  }

  /** The outcome of fetching a ticker that is not skipped. */
  function NewOutcome(t: string, fetch: string -> Result<Row>): Outcome
  {
    var s := Strip(t);
    match fetch(s)
    case Ok(row) => Fetched(Upper(s), row)
    case Err(e) => Failed(s, e)
  }

  /** No key is fetched twice. */
  lemma {:induction false} FetchedKeysDistinct(ts: seq<string>, fetch: string -> Result<Row>)
    ensures forall i, j :: (0 <= i < j < |Outcomes(ts, fetch)| && Outcomes(ts, fetch)[i].Fetched?
      && Outcomes(ts, fetch)[j].Fetched?) ==> Outcomes(ts, fetch)[i].key != Outcomes(ts, fetch)[j].key
  {
    if ts != [] {
      var init := ts[..|ts| - 1];
      var t := ts[|ts| - 1];
      var os := Outcomes(init, fetch);
      FetchedKeysDistinct(init, fetch);
      VisitShape(os, t, fetch);
      var os' := Visit(os, t, fetch);
      assert Outcomes(ts, fetch) == os';
      if os' != os {
        var o := NewOutcome(t, fetch);
        forall i | 0 <= i < |os| && os[i].Fetched? && o.Fetched?
          ensures os[i].key != o.key
        {
          assert os[i].key in SeenOf(os);
        }
        assert forall i :: 0 <= i < |os| ==> os'[i] == os[i];
      }
    }
  }

  /** Every outcome comes from a non-blank ticker: its key or ticker, and what the fetch gave. */
  lemma {:induction false} OutcomesFromTickers(ts: seq<string>, fetch: string -> Result<Row>)
    ensures forall i :: 0 <= i < |Outcomes(ts, fetch)| ==> FromTicker(ts, Outcomes(ts, fetch)[i], fetch)
  {
    if ts != [] {
      var init := ts[..|ts| - 1];
      var t := ts[|ts| - 1];
      var os := Outcomes(init, fetch);
      OutcomesFromTickers(init, fetch);
      VisitShape(os, t, fetch);
      var os' := Visit(os, t, fetch);
      assert Outcomes(ts, fetch) == os';
      forall i | 0 <= i < |os'|
        ensures FromTicker(ts, os'[i], fetch)
      {
        if i < |os| {
          assert os'[i] == os[i];
          FromTickerGrows(init, ts, os[i], fetch);
        } else {
          NewFromTicker(ts, fetch);
        }
      }
    }
  }

  lemma NewFromTicker(ts: seq<string>, fetch: string -> Result<Row>)
    requires ts != [] && Strip(ts[|ts| - 1]) != []
    ensures FromTicker(ts, NewOutcome(ts[|ts| - 1], fetch), fetch)
  {
    assert Produces(ts[|ts| - 1], NewOutcome(ts[|ts| - 1], fetch), fetch);
  }

  /** The outcome o came from some non-blank ticker of ts: o is what fetching its stripped spelling gives. */
  predicate FromTicker(ts: seq<string>, o: Outcome, fetch: string -> Result<Row>)
  {
    exists k :: 0 <= k < |ts| && Produces(ts[k], o, fetch)
  }

  predicate Produces(t: string, o: Outcome, fetch: string -> Result<Row>)
  {
    Strip(t) != [] && o == NewOutcome(t, fetch)
  }

  lemma FromTickerGrows(ts: seq<string>, ts': seq<string>, o: Outcome, fetch: string -> Result<Row>)
    requires |ts| <= |ts'| && ts == ts'[..|ts|]
    requires FromTicker(ts, o, fetch)
    ensures FromTicker(ts', o, fetch)
  {
    var k :| 0 <= k < |ts| && Produces(ts[k], o, fetch);
    assert ts'[k] == ts[k];
  }

  /** Every ticker is blank. */
  predicate AllBlank(ts: seq<string>)
  {
    forall k :: 0 <= k < |ts| ==> Strip(ts[k]) == []
  }

  lemma AllBlankAppend(ts: seq<string>, t: string)
    ensures AllBlank(ts + [t]) <==> AllBlank(ts) && Strip(t) == []
  {
    var ts' := ts + [t];
    assert forall k :: 0 <= k < |ts| ==> ts'[k] == ts[k];
    assert ts'[|ts|] == t;
  }

  /** The loop produces nothing exactly when every ticker is blank. */
  lemma {:induction false} NoOutcomes(ts: seq<string>, fetch: string -> Result<Row>)
    ensures Outcomes(ts, fetch) == [] <==> AllBlank(ts)
  {
    if ts != [] {
      var init := ts[..|ts| - 1];
      var t := ts[|ts| - 1];
      NoOutcomes(init, fetch);
      assert ts == init + [t];
      AllBlankAppend(init, t);
      var os := Outcomes(init, fetch);
      assert Outcomes(ts, fetch) == Visit(os, t, fetch);
      VisitShape(os, t, fetch);
      if os == [] && Strip(t) != [] {
        assert Upper(Strip(t)) !in SeenOf(os);
      }
    }
  }

  /** `df[c] = 1.0` reaches only the columns that were missing. */
  lemma {:induction false} DefaultedCell(t: Table, cs: seq<string>, i: nat, c: string)
    requires WellFormed(t) && i < |t.rows|
    requires c in t.columns || c in cs
    ensures c in Defaulted(t, cs).rows[i]
    ensures Defaulted(t, cs).rows[i][c] == if c in t.columns then t.rows[i][c] else Num(1.0)
  {
    if cs != [] {
      var init := cs[..|cs| - 1];
      if c in t.columns || c in init {
        DefaultedCell(t, init, i, c);
      }
    }
  }

  /**
   * With some ticker not blank, the table is well formed, has a row per outcome, and a column
   * for every key of every row plus shares_basic and price.
   */
  lemma BulkShape(ts: seq<string>, fetch: string -> Result<Row>, c: string)
    requires exists k :: 0 <= k < |ts| && Strip(ts[k]) != []
    ensures var t := Bulk(ts, fetch);
      WellFormed(t) && |t.rows| == |Outcomes(ts, fetch)|
      && (c in t.columns <==> c in ColumnsOf(RowsOf(Outcomes(ts, fetch))) || c in Defaults)
  {
    NoOutcomes(ts, fetch);
  }

  /** Each row holds its own cells, 1.0 in a default column no row had, and a missing cell elsewhere. */
  lemma BulkCells(ts: seq<string>, fetch: string -> Result<Row>, i: nat, c: string)
    requires exists k :: 0 <= k < |ts| && Strip(ts[k]) != []
    requires i < |Outcomes(ts, fetch)|
    requires c in ColumnsOf(RowsOf(Outcomes(ts, fetch))) || c in Defaults
    ensures var rows := RowsOf(Outcomes(ts, fetch));
      i < |Bulk(ts, fetch).rows| && c in Bulk(ts, fetch).rows[i]
      && Bulk(ts, fetch).rows[i][c] == if c in rows[i] then rows[i][c] else if c !in ColumnsOf(rows) then Num(1.0) else Null
  {
    NoOutcomes(ts, fetch);
    var rows := RowsOf(Outcomes(ts, fetch));
    assert rows != [];
    assert Bulk(ts, fetch) == Defaulted(Concat(rows), Defaults);
    DefaultedConcatCell(rows, i, c);
  }

  lemma DefaultedConcatCell(rows: seq<Row>, i: nat, c: string)
    requires i < |rows| && (c in ColumnsOf(rows) || c in Defaults)
    ensures var t := Defaulted(Concat(rows), Defaults);
      i < |t.rows| && c in t.rows[i]
      && t.rows[i][c] == if c in rows[i] then rows[i][c] else if c !in ColumnsOf(rows) then Num(1.0) else Null
  {
    DefaultedCell(Concat(rows), Defaults, i, c);
  }

  /** Only blank input gives the empty table. */
  lemma BulkEmpty(ts: seq<string>, fetch: string -> Result<Row>)
    ensures Bulk(ts, fetch).rows == [] <==> forall k :: 0 <= k < |ts| ==> Strip(ts[k]) == []
    ensures Bulk(ts, fetch).rows == [] ==> Bulk(ts, fetch) == Table({}, [])
  {
    NoOutcomes(ts, fetch);
  }
}
