/**
 * `prepare_financials` of src/transform.py: provider concept names renamed to the
 * canonical ones, missing cells of numeric columns zero-filled, and, when the table has
 * an `fy` column, one row per ticker: the one with the latest fiscal year.
 *
 * Columns are positional here, because a rename can give two columns the same label.
 */
module Transform {
  import opened Wrappers
  import opened Frames
  import opened CellOrder

  /** Column labels, pandas' per-column "numeric dtype" flag, and rows of one cell per column. */
  datatype Frame = Frame(names: seq<string>, numeric: seq<bool>, rows: seq<seq<Cell>>)

  predicate Rectangular(f: Frame)
  {
    |f.numeric| == |f.names| && forall i :: 0 <= i < |f.rows| ==> |f.rows[i]| == |f.names|
  }

  /** `rename_map`: SEC concept names to canonical column names. */
  const RenameMap: map<string, string> := map[
    "Revenues" := "revenue",
    "OperatingIncomeLoss" := "ebit",
    "NetIncomeLoss" := "net_income",
    "Assets" := "total_assets",
    "Liabilities" := "total_liabilities",
    "AssetsCurrent" := "current_assets",
    "LiabilitiesCurrent" := "current_liabilities",
    "InventoryNet" := "inventory",
    "CashAndCashEquivalentsAtCarryingValue" := "cash",
    "NetCashProvidedByUsedInOperatingActivities" := "operating_cf",
    "PaymentsToAcquirePropertyPlantAndEquipment" := "capex",
    "LongTermDebtNoncurrent" := "long_term_debt",
    "LongTermDebtCurrent" := "short_term_debt",
    "StockholdersEquity" := "shareholders_equity"
  ]

  function Canonical(name: string): string
  {
    if name in RenameMap then RenameMap[name] else name
  }

  /**
   * `df.rename(columns=rename_map)`: every label that is a key of the map takes its canonical
   * name, every other label is kept, and the data is untouched. No label of the result is a
   * provider name any more.
   */
  function Rename(f: Frame): (g: Frame)
    ensures g.numeric == f.numeric && g.rows == f.rows && |g.names| == |f.names|
    ensures forall j :: 0 <= j < |f.names| && f.names[j] in RenameMap ==> g.names[j] == RenameMap[f.names[j]]
    ensures forall j :: 0 <= j < |f.names| && f.names[j] !in RenameMap ==> g.names[j] == f.names[j]
    ensures forall j :: 0 <= j < |g.names| ==> g.names[j] !in RenameMap
  {
    Frame(seq(|f.names|, j requires 0 <= j < |f.names| => Canonical(f.names[j])), f.numeric, f.rows)
  }

  /** Renaming twice is renaming once. */
  lemma RenameIdempotent(f: Frame)
    ensures Rename(Rename(f)) == Rename(f)
  {
    var g := Rename(f);
    assert Rename(g).names == g.names;
  }

  /** The labels the fill loop skips. */
  const Unfilled: set<string> := {"ticker", "period"}

  /**
   * Column j is zero-filled: a numeric column other than `ticker` and `period` whose label
   * names no other column. For a shared label `df[c]` is a frame, which is not of a numeric
   * dtype, so neither column is filled.
   */
  predicate Fillable(f: Frame, j: nat)
    requires Rectangular(f) && j < |f.names|
  {
    f.names[j] !in Unfilled && f.numeric[j] && CountOf(f.names, f.names[j]) == 1
  }

  function FillCell(c: Cell): Cell
  {
    if c.Null? then Num(0.0) else c
  }

  /** The rows once the first j columns have been through the fill loop. */
  function FilledUpTo(f: Frame, j: nat): (rows: seq<seq<Cell>>)
    requires Rectangular(f) && j <= |f.names|
    ensures |rows| == |f.rows| && forall i :: 0 <= i < |rows| ==> |rows[i]| == |f.names|
  {
    seq(|f.rows|, i requires 0 <= i < |f.rows| =>
      seq(|f.names|, k requires 0 <= k < |f.names| =>
        if k < j && Fillable(f, k) then FillCell(f.rows[i][k]) else f.rows[i][k]))
  }

  /** The frame after the fill loop: missing cells of every fillable column become 0. */
  function Filled(f: Frame): (g: Frame)
    requires Rectangular(f)
    ensures Rectangular(g)
  {
    Frame(f.names, f.numeric, FilledUpTo(f, |f.names|))
  }

  /** `df[c] = df[c].fillna(0)` for one column. */
  function FillColumn(rows: seq<seq<Cell>>, j: nat): (r: seq<seq<Cell>>)
    requires forall i :: 0 <= i < |rows| ==> j < |rows[i]|
    ensures |r| == |rows|
    ensures forall i :: 0 <= i < |rows| ==> |r[i]| == |rows[i]|
    ensures forall i, k :: 0 <= i < |rows| && 0 <= k < |rows[i]| ==>
      r[i][k] == if k == j then FillCell(rows[i][k]) else rows[i][k]
  {
    seq(|rows|, i requires 0 <= i < |rows| => rows[i][j := FillCell(rows[i][j])])
  }

  /** One turn of the fill loop: column j is filled exactly when it is fillable. */
  lemma FillStep(f: Frame, j: nat)
    requires Rectangular(f) && j < |f.names|
    ensures Fillable(f, j) ==> FillColumn(FilledUpTo(f, j), j) == FilledUpTo(f, j + 1)
    ensures !Fillable(f, j) ==> FilledUpTo(f, j) == FilledUpTo(f, j + 1)
  {
    var now, next := FilledUpTo(f, j), FilledUpTo(f, j + 1);
    var filled := FillColumn(now, j);
    forall i | 0 <= i < |f.rows|
      ensures Fillable(f, j) ==> filled[i] == next[i]
      ensures !Fillable(f, j) ==> now[i] == next[i]
    {
      assert |filled[i]| == |next[i]| == |now[i]|;
      forall k | 0 <= k < |f.names|
        ensures Fillable(f, j) ==> filled[i][k] == next[i][k]
        ensures !Fillable(f, j) ==> now[i][k] == next[i][k]
      {
      }
    }
  }

  /** The loop over the columns of the copy, filling the fillable ones one at a time. */
  method FillMissing(f: Frame) returns (g: Frame)
    requires Rectangular(f)
    ensures g == Filled(f)
  {
    var rows := f.rows;
    forall i | 0 <= i < |rows|
      ensures rows[i] == FilledUpTo(f, 0)[i]
    {
      assert |rows[i]| == |f.names|;
    }
    for j := 0 to |f.names|
      invariant rows == FilledUpTo(f, j)
    {
      FillStep(f, j);
      if f.names[j] !in Unfilled && f.numeric[j] && CountOf(f.names, f.names[j]) == 1 {
        rows := FillColumn(rows, j);
      }
    }
    g := Frame(f.names, f.numeric, rows);
  }

  /**
   * The fill leaves no missing cell in a fillable column (`fy` included), changes nothing
   * in any other column (a shared label among them), and keeps every cell that was present.
   */
  lemma FilledCells(f: Frame)
    requires Rectangular(f)
    ensures Filled(f).names == f.names && |Filled(f).rows| == |f.rows|
    ensures forall i, j :: 0 <= i < |f.rows| && 0 <= j < |f.names| && Fillable(f, j) ==> !Filled(f).rows[i][j].Null?
    ensures forall i, j :: 0 <= i < |f.rows| && 0 <= j < |f.names| && !Fillable(f, j) ==> Filled(f).rows[i][j] == f.rows[i][j]
    ensures forall i, j :: 0 <= i < |f.rows| && 0 <= j < |f.names| && CountOf(f.names, f.names[j]) > 1 ==>
      Filled(f).rows[i][j] == f.rows[i][j]
    ensures forall i, j :: 0 <= i < |f.rows| && 0 <= j < |f.names| && !f.rows[i][j].Null? ==> Filled(f).rows[i][j] == f.rows[i][j]
    ensures forall i, j :: 0 <= i < |f.rows| && 0 <= j < |f.names| && f.rows[i][j].Null? && Fillable(f, j) ==>
      Filled(f).rows[i][j] == Num(0.0)
  {
  }

  /**
   * Numeric columns `Revenues` and `revenue` both become `revenue`; the missing cell of
   * the first one is then left missing.
   */
  lemma SharedLabelKeepsMissing()
    ensures var f := Frame(["Revenues", "revenue"], [true, true], [[Null, Num(1.0)]]);
      Rename(f).names == ["revenue", "revenue"] && Filled(Rename(f)).rows[0][0] == Null
  {
    var f := Frame(["Revenues", "revenue"], [true, true], [[Null, Num(1.0)]]);
    var g := Rename(f);
    assert g.names[0] == "revenue" && g.names[1] == "revenue";
    assert g.names == ["revenue", "revenue"];
    assert CountOf(g.names, "revenue") == 2 by {
      assert g.names[1..] == ["revenue"];
      assert g.names[1..][1..] == [];
    }
    FilledCells(g);
  }

  // ---- sort_values(["ticker", "fy"]) ----

  /** Every row has a cell at the ticker position ti and the fy position fi. */
  predicate Keyed(rows: seq<seq<Cell>>, ti: nat, fi: nat)
  {
    forall r :: r in rows ==> ti < |r| && fi < |r|
  }

  /** Row a may come before row b: ticker ascending, then fy ascending, missing cells last. */
  predicate KeyLe(a: seq<Cell>, b: seq<Cell>, ti: nat, fi: nat)
    requires ti < |a| && fi < |a| && ti < |b| && fi < |b|
  {
    CellLess(a[ti], b[ti]) || (a[ti] == b[ti] && !CellLess(b[fi], a[fi]))
  }

  lemma KeyLeTotal(a: seq<Cell>, b: seq<Cell>, ti: nat, fi: nat)
    requires ti < |a| && fi < |a| && ti < |b| && fi < |b|
    ensures KeyLe(a, b, ti, fi) || KeyLe(b, a, ti, fi)
  {
    if a[ti] != b[ti] {
      CellLessTotal(a[ti], b[ti]);
    } else if CellLess(b[fi], a[fi]) {
      if CellLess(a[fi], b[fi]) {
        CellLessTransitive(a[fi], b[fi], a[fi]);
        CellLessIrreflexive(a[fi]);
      }
    }
  }

  lemma KeyLeTransitive(a: seq<Cell>, b: seq<Cell>, c: seq<Cell>, ti: nat, fi: nat)
    requires ti < |a| && fi < |a| && ti < |b| && fi < |b| && ti < |c| && fi < |c|
    requires KeyLe(a, b, ti, fi) && KeyLe(b, c, ti, fi)
    ensures KeyLe(a, c, ti, fi)
  {
    if CellLess(a[ti], b[ti]) && CellLess(b[ti], c[ti]) {
      CellLessTransitive(a[ti], b[ti], c[ti]);
    } else if a[ti] == b[ti] == c[ti] {
      if CellLess(c[fi], a[fi]) {
        if a[fi] == b[fi] {
        } else {
          CellLessTotal(a[fi], b[fi]);
          CellLessTransitive(c[fi], a[fi], b[fi]);
        }
      }
    }
  }

  predicate SortedByKey(rows: seq<seq<Cell>>, ti: nat, fi: nat)
    requires Keyed(rows, ti, fi)
  {
    forall p, q :: 0 <= p < q < |rows| ==> KeyLe(rows[p], rows[q], ti, fi)
  }

  /** Inserts a row before the first row it may precede. */
  function InsertRow(row: seq<Cell>, sorted: seq<seq<Cell>>, ti: nat, fi: nat): (r: seq<seq<Cell>>)
    requires ti < |row| && fi < |row| && Keyed(sorted, ti, fi)
    ensures multiset(r) == multiset(sorted) + multiset{row}
    ensures Keyed(r, ti, fi)
  {
    if sorted == [] then [row]
    else if KeyLe(row, sorted[0], ti, fi) then [row] + sorted
    else
      assert sorted == [sorted[0]] + sorted[1..];
      [sorted[0]] + InsertRow(row, sorted[1..], ti, fi)
  }

  lemma {:induction false} InsertRowSorted(row: seq<Cell>, sorted: seq<seq<Cell>>, ti: nat, fi: nat)
    requires ti < |row| && fi < |row| && Keyed(sorted, ti, fi) && SortedByKey(sorted, ti, fi)
    ensures SortedByKey(InsertRow(row, sorted, ti, fi), ti, fi)
  {
    if sorted == [] {
    } else if KeyLe(row, sorted[0], ti, fi) {
      forall q | 0 <= q < |sorted|
        ensures KeyLe(row, sorted[q], ti, fi)
      {
        if q > 0 {
          KeyLeTransitive(row, sorted[0], sorted[q], ti, fi);
        }
      }
      ConsSorted(row, sorted, ti, fi);
    } else {
      var rest := sorted[1..];
      InsertRowSorted(row, rest, ti, fi);
      KeyLeTotal(row, sorted[0], ti, fi);
      assert sorted[0] in sorted;
      var ins := InsertRow(row, rest, ti, fi);
      forall q | 0 <= q < |ins|
        ensures KeyLe(sorted[0], ins[q], ti, fi)
      {
        HeadPrecedesInserted(row, sorted, ti, fi, q);
      }
      ConsSorted(sorted[0], ins, ti, fi);
    }
  }

  /** A row that may precede every row of a sorted list may go in front of it. */
  lemma ConsSorted(h: seq<Cell>, s: seq<seq<Cell>>, ti: nat, fi: nat)
    requires ti < |h| && fi < |h| && Keyed(s, ti, fi) && SortedByKey(s, ti, fi)
    requires forall q :: 0 <= q < |s| ==> KeyLe(h, s[q], ti, fi)
    ensures Keyed([h] + s, ti, fi) && SortedByKey([h] + s, ti, fi)
  {
    var r := [h] + s;
    assert forall q :: 0 < q < |r| ==> r[q] == s[q - 1];
  }

  /** The head of a sorted list precedes whatever inserting a later row into its tail gives. */
  lemma HeadPrecedesInserted(row: seq<Cell>, sorted: seq<seq<Cell>>, ti: nat, fi: nat, q: nat)
    requires ti < |row| && fi < |row| && Keyed(sorted, ti, fi) && SortedByKey(sorted, ti, fi)
    requires sorted != [] && KeyLe(sorted[0], row, ti, fi)
    requires q < |InsertRow(row, sorted[1..], ti, fi)|
    ensures var ins := InsertRow(row, sorted[1..], ti, fi);
      KeyLe(sorted[0], ins[q], ti, fi)
  {
    var rest := sorted[1..];
    var ins := InsertRow(row, rest, ti, fi);
    assert ins[q] in multiset(ins);
    if ins[q] != row {
      assert ins[q] in multiset(rest);
      var k :| 0 <= k < |rest| && rest[k] == ins[q];
      assert sorted[k + 1] == ins[q];
    }
  }

  /** `sort_values(["ticker", "fy"])`, as an insertion sort that keeps equal keys in input order. */
  function SortRows(rows: seq<seq<Cell>>, ti: nat, fi: nat): (r: seq<seq<Cell>>)
    requires Keyed(rows, ti, fi)
    ensures multiset(r) == multiset(rows)
    ensures Keyed(r, ti, fi)
  {
    if rows == [] then []
    else
      assert rows == [rows[0]] + rows[1..];
      InsertRow(rows[0], SortRows(rows[1..], ti, fi), ti, fi)
  }

  lemma {:induction false} SortRowsSorted(rows: seq<seq<Cell>>, ti: nat, fi: nat)
    requires Keyed(rows, ti, fi)
    ensures SortedByKey(SortRows(rows, ti, fi), ti, fi)
  {
    if rows != [] {
      assert rows == [rows[0]] + rows[1..];
      SortRowsSorted(rows[1..], ti, fi);
      InsertRowSorted(rows[0], SortRows(rows[1..], ti, fi), ti, fi);
    }
  }

  // ---- groupby("ticker").tail(1) ----

  /**
   * The last row of each run of equal tickers, in order; rows whose ticker is missing
   * form no group and are dropped.
   */
  function LastOfGroups(s: seq<seq<Cell>>, ti: nat, fi: nat): (r: seq<seq<Cell>>)
    requires Keyed(s, ti, fi)
    ensures forall x :: x in r ==> x in s
    ensures forall x: seq<Cell> :: x in r ==> !x[ti].Null?
  {
    if s == [] then []
    else
      assert s[0] in s;
      var head := if s[0][ti].Null? || (|s| > 1 && s[1][ti] == s[0][ti]) then [] else [s[0]];
      head + LastOfGroups(s[1..], ti, fi)
  }

  /** The tickers of the rows strictly increase. */
  predicate TickersAscending(r: seq<seq<Cell>>, ti: nat)
    requires forall x :: x in r ==> ti < |x|
  {
    forall a, b :: 0 <= a < b < |r| ==> CellLess(r[a][ti], r[b][ti])
  }

  /** In a sorted sequence, the group ends come in strictly ascending ticker order. */
  lemma {:induction false} LastOfGroupsAscending(s: seq<seq<Cell>>, ti: nat, fi: nat)
    requires Keyed(s, ti, fi) && SortedByKey(s, ti, fi)
    ensures TickersAscending(LastOfGroups(s, ti, fi), ti)
  {
    if s != [] {
      var tail := s[1..];
      SortedTail(s, ti, fi);
      var rest := LastOfGroups(tail, ti, fi);
      LastOfGroupsAscending(tail, ti, fi);
      var r := LastOfGroups(s, ti, fi);
      if s[0][ti].Null? || (|s| > 1 && s[1][ti] == s[0][ti]) {
        assert r == rest;
      } else {
        assert r == [s[0]] + rest;
        forall a, b | 0 <= a < b < |r|
          ensures CellLess(r[a][ti], r[b][ti])
        {
          assert r[b] == rest[b - 1] && r[b] in rest;
          if a > 0 {
            assert r[a] == rest[a - 1];
            assert CellLess(rest[a - 1][ti], rest[b - 1][ti]);
          } else {
            var k :| 0 <= k < |tail| && tail[k] == r[b];
            assert s[k + 1] == r[b];
            assert KeyLe(s[0], s[1], ti, fi);
            assert s[1][ti] != s[0][ti];
            assert CellLess(s[0][ti], s[1][ti]);
            if k > 0 {
              assert KeyLe(s[1], s[k + 1], ti, fi);
              if CellLess(s[1][ti], s[k + 1][ti]) {
                CellLessTransitive(s[0][ti], s[1][ti], s[k + 1][ti]);
              }
            }
          }
        }
      }
    }
  }

  /** Every ticker of the sequence has a group end. */
  lemma {:induction false} LastOfGroupsCovers(s: seq<seq<Cell>>, ti: nat, fi: nat, i: nat)
    requires Keyed(s, ti, fi) && i < |s| && !s[i][ti].Null?
    ensures exists x :: x in LastOfGroups(s, ti, fi) && x[ti] == s[i][ti]
  {
    assert s[i] in s;
    var rest := LastOfGroups(s[1..], ti, fi);
    var r := LastOfGroups(s, ti, fi);
    if i > 0 {
      LastOfGroupsCovers(s[1..], ti, fi, i - 1);
      var x :| x in rest && x[ti] == s[1..][i - 1][ti];
      assert x in r;
    } else if |s| > 1 && s[1][ti] == s[0][ti] {
      LastOfGroupsCovers(s[1..], ti, fi, 0);
      var x :| x in rest && x[ti] == s[1][ti];
      assert x in r;
    } else {
      assert r == [s[0]] + rest;
      assert s[0] in r;
    }
  }

  /** In a sorted sequence, a group end carries the largest fy of its ticker. */
  lemma {:induction false} LastOfGroupsLatest(s: seq<seq<Cell>>, ti: nat, fi: nat, x: seq<Cell>, y: seq<Cell>)
    requires Keyed(s, ti, fi) && SortedByKey(s, ti, fi)
    requires x in LastOfGroups(s, ti, fi) && y in s && y[ti] == x[ti]
    ensures !CellLess(x[fi], y[fi])
  {
    var tail := s[1..];
    SortedTail(s, ti, fi);
    var rest := LastOfGroups(tail, ti, fi);
    var head := if s[0][ti].Null? || (|s| > 1 && s[1][ti] == s[0][ti]) then [] else [s[0]];
    assert LastOfGroups(s, ti, fi) == head + rest;
    if x in rest {
      if y in tail {
        LastOfGroupsLatest(tail, ti, fi, x, y);
      } else {
        assert y == s[0];
        assert x in tail;
        var k :| 0 <= k < |tail| && tail[k] == x;
        assert s[k + 1] == x;
        assert KeyLe(s[0], s[k + 1], ti, fi);
        CellLessIrreflexive(x[ti]);
      }
    } else {
      assert x in head;
      assert x == s[0] && s[0] !in [];
      if y == s[0] {
        CellLessIrreflexive(x[fi]);
      } else {
        var k :| 0 <= k < |s| && s[k] == y;
        assert k > 0 && |s| > 1;
        assert s[1][ti] != s[0][ti];
        assert KeyLe(s[0], s[1], ti, fi);
        assert CellLess(s[0][ti], s[1][ti]);
        if k > 1 {
          assert KeyLe(s[1], s[k], ti, fi);
          if CellLess(s[1][ti], s[k][ti]) {
            CellLessTransitive(s[0][ti], s[1][ti], s[k][ti]);
          }
        }
        CellLessIrreflexive(s[0][ti]);
      }
    }
  }

  /** A sorted sequence stays sorted without its first row. */
  lemma SortedTail(s: seq<seq<Cell>>, ti: nat, fi: nat)
    requires Keyed(s, ti, fi) && SortedByKey(s, ti, fi) && s != []
    ensures Keyed(s[1..], ti, fi) && SortedByKey(s[1..], ti, fi)
  {
    var tail := s[1..];
    forall p, q | 0 <= p < q < |tail|
      ensures KeyLe(tail[p], tail[q], ti, fi)
    {
      assert tail[p] == s[p + 1] && tail[q] == s[q + 1];
    }
  }

  /** `sort_values(["ticker", "fy"]).groupby("ticker", as_index=False).tail(1)`. */
  function LatestPerTicker(rows: seq<seq<Cell>>, ti: nat, fi: nat): (r: seq<seq<Cell>>)
    requires Keyed(rows, ti, fi)
    ensures forall x :: x in r ==> x in rows
    ensures forall x: seq<Cell> :: x in r ==> !x[ti].Null?
  {
    var s := SortRows(rows, ti, fi);
    assert forall x :: x in s ==> x in rows by {
      forall x | x in s ensures x in rows {
        assert x in multiset(s);
      }
    }
    LastOfGroups(s, ti, fi)
  }

  /** The rows kept come in strictly ascending ticker order, so there is one per ticker. */
  lemma LatestPerTickerAscending(rows: seq<seq<Cell>>, ti: nat, fi: nat)
    requires Keyed(rows, ti, fi)
    ensures TickersAscending(LatestPerTicker(rows, ti, fi), ti)
  {
    SortRowsSorted(rows, ti, fi);
    LastOfGroupsAscending(SortRows(rows, ti, fi), ti, fi);
  }

  /** Every ticker present in the input has a row in the result. */
  lemma LatestPerTickerCovers(rows: seq<seq<Cell>>, ti: nat, fi: nat, i: nat)
    requires Keyed(rows, ti, fi) && i < |rows| && !rows[i][ti].Null?
    ensures exists x :: x in LatestPerTicker(rows, ti, fi) && x[ti] == rows[i][ti]
  {
    var s := SortRows(rows, ti, fi);
    assert rows[i] in multiset(s);
    var k :| 0 <= k < |s| && s[k] == rows[i];
    LastOfGroupsCovers(s, ti, fi, k);
  }

  /** The row kept for a ticker carries the largest fy among that ticker's input rows. */
  lemma LatestPerTickerLatest(rows: seq<seq<Cell>>, ti: nat, fi: nat, x: seq<Cell>, i: nat)
    requires Keyed(rows, ti, fi) && x in LatestPerTicker(rows, ti, fi)
    requires i < |rows| && rows[i][ti] == x[ti]
    ensures !CellLess(x[fi], rows[i][fi])
  {
    var s := SortRows(rows, ti, fi);
    SortRowsSorted(rows, ti, fi);
    assert rows[i] in multiset(s);
    LastOfGroupsLatest(s, ti, fi, x, rows[i]);
  }

  /** Strictly ascending tickers are distinct: at most one row per ticker. */
  lemma AscendingTickersDistinct(r: seq<seq<Cell>>, ti: nat)
    requires forall x :: x in r ==> ti < |x|
    requires TickersAscending(r, ti)
    ensures forall a, b :: 0 <= a < |r| && 0 <= b < |r| && a != b ==> r[a][ti] != r[b][ti]
  {
    forall a, b | 0 <= a < |r| && 0 <= b < |r| && a != b
      ensures r[a][ti] != r[b][ti]
    {
      assert r[a] in r && r[b] in r;
      CellLessIrreflexive(r[a][ti]);
    }
  }

  // ---- prepare_financials ----

  /** How many columns carry the label x. */
  function CountOf(names: seq<string>, x: string): (n: nat)
    ensures n <= |names|
    ensures n == 0 <==> x !in names
  {
    if names == [] then 0
    else (if names[0] == x then 1 else 0) + CountOf(names[1..], x)
  }

  /** The position of the first column labelled x. */
  function IndexOf(names: seq<string>, x: string): (j: nat)
    requires x in names
    ensures j < |names| && names[j] == x && x !in names[..j]
  {
    if names[0] == x then 0
    else
      var j := 1 + IndexOf(names[1..], x);
      assert names[..j] == [names[0]] + names[1..][..j - 1];
      j
  }

  function NotUnique(name: string): string
  {
    "ValueError: The column label '" + name + "' is not unique."
  }

  /**
   * `prepare_financials`: rename, zero-fill, and, when there is an `fy` column, keep the
   * latest row of each ticker. Sorting by `["ticker", "fy"]` fails when `ticker` is missing
   * or when either label names more than one column.
   */
  method PrepareFinancials(f: Frame) returns (r: Result<Frame>)
    requires Rectangular(f)
    ensures var names := Rename(f).names;
      && ("fy" !in names ==> r == Ok(Filled(Rename(f))))
      && ("fy" in names && "ticker" !in names ==> r == Err(KeyError("ticker")))
      && ("fy" in names && CountOf(names, "ticker") > 1 ==> r == Err(NotUnique("ticker")))
      && ("fy" in names && CountOf(names, "ticker") == 1 && CountOf(names, "fy") > 1 ==> r == Err(NotUnique("fy")))
      && ("fy" in names && CountOf(names, "ticker") == 1 && CountOf(names, "fy") == 1 ==>
            r == Ok(Frame(names, f.numeric,
                      LatestPerTicker(Filled(Rename(f)).rows, IndexOf(names, "ticker"), IndexOf(names, "fy")))))
  {
    var renamed := Rename(f);
    var g := FillMissing(renamed);
    var names := g.names;
    if "fy" !in names {
      return Ok(g);
    }
    if "ticker" !in names {
      return Err(KeyError("ticker"));
    }
    if CountOf(names, "ticker") > 1 {
      return Err(NotUnique("ticker"));
    }
    if CountOf(names, "fy") > 1 {
      return Err(NotUnique("fy"));
    }
    var ti, fi := IndexOf(names, "ticker"), IndexOf(names, "fy");
    assert Keyed(g.rows, ti, fi) by {
      forall x | x in g.rows
        ensures ti < |x| && fi < |x|
      {
        var i :| 0 <= i < |g.rows| && g.rows[i] == x;
      }
    }
    r := Ok(Frame(names, g.numeric, LatestPerTicker(g.rows, ti, fi)));
  }
}
