/**
 * `_extract_latest_annual_value` and the two share-concept lookups of src/ingest_sec.py:
 * the latest annual (10-K) value of an XBRL concept in a company-facts document.
 */
module Facts {
  import opened Wrappers
  import opened Json

  /** One reported fact: its members (`form`, `fy`, `val`, ...) by name. */
  type Item = map<string, Scalar>

  /** A concept's `units` member: the facts reported in each unit. */
  type Units = map<string, seq<Item>>

  /** A taxonomy (`us-gaap`): concept name to the concept's units. */
  type Taxonomy = map<string, Units>

  /** The `facts` member of a company-facts document: taxonomy name to taxonomy. */
  type FactsDoc = map<string, Taxonomy>

  const AnnualForms: set<string> := {"10-K", "10-K/A"}

  /** A value with its fiscal year. */
  type Dated = (int, real)

  /**
   * The (fy, val) pair an item contributes: its form is `10-K` or `10-K/A`, its `fy` is
   * truthy, and both `int(item["fy"])` and `float(item["val"])` succeed.
   */
  function Annual(item: Item): (a: Option<Dated>)
    ensures a.Some? ==> "form" in item && item["form"].JStr? && item["form"].s in AnnualForms
    ensures a.Some? ==> "fy" in item && Truthy(item["fy"]) && PyInt(item["fy"]) == Some(a.value.0)
    ensures a.Some? ==> "val" in item && PyFloat(item["val"]) == Some(a.value.1)
  {
    if "form" in item && item["form"].JStr? && item["form"].s in AnnualForms
      && "fy" in item && Truthy(item["fy"])
    then
      var fy := PyInt(item["fy"]);
      var val := if "val" in item then PyFloat(item["val"]) else None;
      if fy.Some? && val.Some? then Some((fy.value, val.value)) else None
    else None
  }

  /** The pairs the items contribute, in order. */
  function AnnualsOf(items: seq<Item>): (rows: seq<Dated>)
    ensures |rows| <= |items|
  {
    if items == [] then []
    else
      var a := Annual(items[|items| - 1]);
      AnnualsOf(items[..|items| - 1]) + (if a.Some? then [a.value] else [])
  }

  /** `series.get(u, [])`. */
  function ItemsIn(series: Units, u: string): seq<Item>
  {
    if u in series then series[u] else []
  }

  /** The rows the two loops collect: unit by unit, item by item. */
  function Collected(series: Units, units: seq<string>): seq<Dated>
  {
    if units == [] then []
    else Collected(series, units[..|units| - 1]) + AnnualsOf(ItemsIn(series, units[|units| - 1]))
  }

  /** The position that `rows.sort(key=fy)` followed by `rows[-1]` picks: the last of the largest fy. */
  function LatestIndex(rows: seq<Dated>): (k: nat)
    requires rows != []
    ensures k < |rows|
    ensures forall j :: 0 <= j < |rows| ==> rows[j].0 <= rows[k].0
    ensures forall j :: k < j < |rows| ==> rows[j].0 < rows[k].0
  {
    if |rows| == 1 then 0
    else
      var k := LatestIndex(rows[..|rows| - 1]);
      if rows[|rows| - 1].0 >= rows[k].0 then |rows| - 1 else k
  }

  /** `facts.get("us-gaap", {}).get(gaap)`, with an absent concept read as empty. */
  function Concept(facts: FactsDoc, gaap: string): Units
  {
    var taxonomy := if "us-gaap" in facts then facts["us-gaap"] else map[];
    if gaap in taxonomy then taxonomy[gaap] else map[]
  }

  /** The value `_extract_latest_annual_value(facts, gaap, units)` returns. */
  function LatestAnnual(facts: FactsDoc, gaap: string, units: seq<string>): Option<Dated>
  {
    var series := Concept(facts, gaap);
    var rows := Collected(series, units);
    if series == map[] || rows == [] then None else Some(rows[LatestIndex(rows)])
  }

  /** The loops of `_extract_latest_annual_value`, then the pick of the latest row. */
  method ExtractLatestAnnualValue(facts: FactsDoc, gaap: string, units: seq<string>) returns (r: Option<Dated>)
    ensures r == LatestAnnual(facts, gaap, units)
  {
    var taxonomy := if "us-gaap" in facts then facts["us-gaap"] else map[];
    if gaap !in taxonomy || taxonomy[gaap] == map[] {
      return None;
    }
    var series := taxonomy[gaap];
    var rows: seq<Dated> := [];
    for u := 0 to |units|
      invariant rows == Collected(series, units[..u])
    {
      assert units[..u + 1][..u] == units[..u];
      var items := ItemsIn(series, units[u]);
      for k := 0 to |items|
        invariant rows == Collected(series, units[..u]) + AnnualsOf(items[..k])
      {
        assert items[..k + 1][..k] == items[..k];
        var a := Annual(items[k]);
        if a.Some? {
          rows := rows + [a.value];
        }
      }
      assert items[..|items|] == items;
    }
    assert units[..|units|] == units;
    if rows == [] {
      return None;
    }
    r := Some(rows[LatestIndex(rows)]);
  }

  /** The pairs collected are exactly the contributions of the items of the listed units. */
  lemma {:induction false} AnnualsOfMembers(items: seq<Item>, x: Dated)
    ensures x in AnnualsOf(items) <==> exists k :: 0 <= k < |items| && Annual(items[k]) == Some(x)
  {
    if items != [] {
      var init := items[..|items| - 1];
      AnnualsOfMembers(init, x);
      if exists k :: 0 <= k < |init| && Annual(init[k]) == Some(x) {
        var k :| 0 <= k < |init| && Annual(init[k]) == Some(x);
        assert Annual(items[k]) == Some(x);
      }
      if exists k :: 0 <= k < |items| && Annual(items[k]) == Some(x) {
        var k :| 0 <= k < |items| && Annual(items[k]) == Some(x);
        if k < |init| {
          assert Annual(init[k]) == Some(x);
        }
      }
    }
  }

  /** Some item of unit u of the concept contributes x. */
  predicate InUnit(series: Units, u: string, x: Dated)
  {
    exists k :: 0 <= k < |ItemsIn(series, u)| && Annual(ItemsIn(series, u)[k]) == Some(x)
  }

  /** Some item of one of the listed units of the concept contributes x. */
  predicate Contributes(series: Units, units: seq<string>, x: Dated)
  {
    exists u :: 0 <= u < |units| && InUnit(series, units[u], x)
  }

  lemma {:induction false} CollectedMembers(series: Units, units: seq<string>, x: Dated)
    ensures x in Collected(series, units) <==> Contributes(series, units, x)
  {
    if units != [] {
      var init := units[..|units| - 1];
      var last := units[|units| - 1];
      CollectedMembers(series, init, x);
      AnnualsOfMembers(ItemsIn(series, last), x);
      ContributesStep(series, units, x);
    }
  }

  /** A unit list contributes x when its first units do or its last unit does. */
  lemma ContributesStep(series: Units, units: seq<string>, x: Dated)
    requires units != []
    ensures Contributes(series, units, x)
      <==> Contributes(series, units[..|units| - 1], x) || InUnit(series, units[|units| - 1], x)
  {
    var init := units[..|units| - 1];
    if Contributes(series, init, x) {
      var u :| 0 <= u < |init| && InUnit(series, init[u], x);
      assert units[u] == init[u];
    }
    if Contributes(series, units, x) {
      var u :| 0 <= u < |units| && InUnit(series, units[u], x);
      if u < |init| {
        assert init[u] == units[u];
      }
    }
  }

  /**
   * No value exactly when no item of the listed units of the concept is a parseable annual
   * filing; otherwise the value is one an item contributes, with the largest fy of all.
   */
  lemma LatestAnnualSpec(facts: FactsDoc, gaap: string, units: seq<string>)
    ensures var series := Concept(facts, gaap);
      LatestAnnual(facts, gaap, units).None? <==> forall x :: !Contributes(series, units, x)
    ensures var series := Concept(facts, gaap);
      var r := LatestAnnual(facts, gaap, units);
      r.Some? ==> (Contributes(series, units, r.value)
        && forall x :: Contributes(series, units, x) ==> x.0 <= r.value.0)
  {
    var series := Concept(facts, gaap);
    var rows := Collected(series, units);
    var r := LatestAnnual(facts, gaap, units);
    if series == map[] {
      forall x
        ensures !Contributes(series, units, x)
      {
        CollectedMembers(series, units, x);
        NothingInEmptyConcept(units, x);
      }
    } else if rows == [] {
      forall x
        ensures !Contributes(series, units, x)
      {
        CollectedMembers(series, units, x);
      }
    } else {
      CollectedMembers(series, units, rows[LatestIndex(rows)]);
      forall x | Contributes(series, units, x)
        ensures x.0 <= r.value.0
      {
        CollectedMembers(series, units, x);
      }
    }
  }

  lemma NothingInEmptyConcept(units: seq<string>, x: Dated)
    ensures !Contributes(map[], units, x)
  {
  }

  // ---- the share concepts ----

  const ShareUnits: seq<string> := ["shares"]

  /** `_extract_latest_instant_shares`: shares outstanding at the balance-sheet date. */
  const InstantCandidates: seq<string> := ["CommonStockSharesOutstanding", "EntityCommonStockSharesOutstanding"]

  /** `_extract_latest_duration_shares`: weighted-average shares over the year. */
  const DurationCandidates: seq<string> := [
    "WeightedAverageNumberOfSharesOutstandingBasic",
    "WeightedAverageNumberOfDilutedSharesOutstanding"
  ]

  /** One step of the candidate loop: a found value replaces the best only with a strictly later fy. */
  function Better(best: Option<Dated>, got: Option<Dated>): Option<Dated>
  {
    if got.Some? && (best.None? || got.value.0 > best.value.0) then got else best
  }

  /** The best over the candidates' values, in order. */
  function BestOf(gots: seq<Option<Dated>>): Option<Dated>
  {
    if gots == [] then None else Better(BestOf(gots[..|gots| - 1]), gots[|gots| - 1])
  }

  /** The latest annual shares value of each candidate concept. */
  function CandidateValues(facts: FactsDoc, candidates: seq<string>): (gots: seq<Option<Dated>>)
    ensures |gots| == |candidates|
    ensures forall i :: 0 <= i < |candidates| ==> gots[i] == LatestAnnual(facts, candidates[i], ShareUnits)
  {
    seq(|candidates|, i requires 0 <= i < |candidates| => LatestAnnual(facts, candidates[i], ShareUnits))
  }

  /** The loop over the candidate concepts, keeping the best value seen so far. */
  method LatestShares(facts: FactsDoc, candidates: seq<string>) returns (best: Option<Dated>)
    ensures best == BestOf(CandidateValues(facts, candidates))
  {
    var gots := CandidateValues(facts, candidates);
    best := None;
    for i := 0 to |candidates|
      invariant best == BestOf(gots[..i])
    {
      assert gots[..i + 1][..i] == gots[..i];
      var got := ExtractLatestAnnualValue(facts, candidates[i], ShareUnits);
      if got.Some? {
        if best.None? || got.value.0 > best.value.0 {
          best := got;
        }
      }
    }
    assert gots[..|candidates|] == gots;
  }

  /** The best is None exactly when every candidate gives nothing. */
  lemma {:induction false} BestOfNone(gots: seq<Option<Dated>>)
    ensures BestOf(gots).None? <==> forall i :: 0 <= i < |gots| ==> gots[i].None?
  {
    if gots != [] {
      var init := gots[..|gots| - 1];
      BestOfNone(init);
      assert forall j :: 0 <= j < |init| ==> gots[j] == init[j];
    }
  }

  /** Candidate k has a value, no candidate a later fy, and no earlier candidate as late a one. */
  predicate FirstLatestAt(gots: seq<Option<Dated>>, k: int)
  {
    0 <= k < |gots| && gots[k].Some?
    && (forall j :: 0 <= j < |gots| && gots[j].Some? ==> gots[j].value.0 <= gots[k].value.0)
    && (forall j :: 0 <= j < k && gots[j].Some? ==> gots[j].value.0 < gots[k].value.0)
  }

  /** Otherwise the best is the value of the first candidate with the largest fy. */
  lemma {:induction false} BestOfFirstLatest(gots: seq<Option<Dated>>)
    ensures BestOf(gots).Some? ==> exists k :: FirstLatestAt(gots, k) && gots[k] == BestOf(gots)
  {
    if gots != [] {
      var init := gots[..|gots| - 1];
      var last := gots[|gots| - 1];
      BestOfFirstLatest(init);
      BestOfNone(init);
      var b := BestOf(init);
      var n := |gots| - 1;
      assert forall j :: 0 <= j < n ==> gots[j] == init[j];
      if last.Some? && (b.None? || last.value.0 > b.value.0) {
        if b.Some? {
          var m :| FirstLatestAt(init, m) && init[m] == b;
        }
        assert FirstLatestAt(gots, n);
      } else if b.Some? {
        var m :| FirstLatestAt(init, m) && init[m] == b;
        assert FirstLatestAt(gots, m);
      }
    }
  }

  /** Two candidates with values for the same fy: the first one wins the tie. */
  lemma TieKeepsFirst(a: Dated, b: Dated)
    requires a.0 == b.0
    ensures BestOf([Some(a), Some(b)]) == Some(a)
  {
    assert [Some(a), Some(b)][..1] == [Some(a)];
    assert [Some(a)][..0] == [];
    assert BestOf([Some(a)]) == Some(a);
  }

  /** Shares as lines 169-171 choose them: the instant candidates, and the duration ones only when those give nothing. */
  function Shares(doc: FactsDoc): Option<Dated>
  {
    var instant := BestOf(CandidateValues(doc, InstantCandidates));
    if instant.Some? then instant else BestOf(CandidateValues(doc, DurationCandidates))
  }

  /**
   * No shares exactly when no candidate of either kind gives a value; an instant candidate's
   * value, when there is one, is preferred to every duration candidate's.
   */
  lemma SharesSpec(doc: FactsDoc)
    ensures Shares(doc).None? <==>
      (forall i :: 0 <= i < |InstantCandidates| ==> LatestAnnual(doc, InstantCandidates[i], ShareUnits).None?)
      && (forall i :: 0 <= i < |DurationCandidates| ==> LatestAnnual(doc, DurationCandidates[i], ShareUnits).None?)
    ensures (exists i :: 0 <= i < |InstantCandidates| && LatestAnnual(doc, InstantCandidates[i], ShareUnits).Some?) ==>
      Shares(doc) == BestOf(CandidateValues(doc, InstantCandidates))
    ensures (forall i :: 0 <= i < |InstantCandidates| ==> LatestAnnual(doc, InstantCandidates[i], ShareUnits).None?) ==>
      Shares(doc) == BestOf(CandidateValues(doc, DurationCandidates))
  {
    BestOfNone(CandidateValues(doc, InstantCandidates));
    BestOfNone(CandidateValues(doc, DurationCandidates));
  }
}
