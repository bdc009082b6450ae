/**
 * `_ticker_map` and `_resolve_cik` of src/ingest_sec.py: the SEC's ticker table turned
 * into a map from upper-case ticker to ten-digit CIK, and the lookup of one ticker in it.
 * Downloading the table is not part of this model: its rows are a parameter.
 */
module TickerMap {
  import opened Wrappers
  import opened Text
  import opened Json
  import opened Tickers

  /** One row of the ticker table: its members by name. */
  type Entry = map<string, Scalar>

  /** `str(row.get(key, ""))`; None for a float, whose printed form is not modelled. */
  function Field(row: Entry, key: string): Option<string>
  {
    if key in row then PyStr(row[key]) else Some("")
  }

  function Zeros(n: nat): (z: string)
    ensures |z| == n && forall k :: 0 <= k < n ==> z[k] == '0'
  {
    if n == 0 then [] else Zeros(n - 1) + ['0']
  }

  /** `s.zfill(width)`: zeros on the left up to width characters, after a leading sign. */
  function ZFill(s: string, width: nat): (r: string)
    ensures |r| == if |s| >= width then |s| else width
    ensures (s == [] || (s[0] != '+' && s[0] != '-')) ==> r == Zeros(|r| - |s|) + s
    ensures s != [] && (s[0] == '+' || s[0] == '-') ==> r == [s[0]] + Zeros(|r| - |s|) + s[1..]
  {
    if |s| >= width then
      assert Zeros(0) + s == s;
      assert s != [] ==> [s[0]] + Zeros(0) + s[1..] == s;
      s
    else if s != [] && (s[0] == '+' || s[0] == '-') then [s[0]] + Zeros(width - |s|) + s[1..]
    else Zeros(width - |s|) + s
  }

  const CikWidth: nat := 10

  /**
   * The map entry a row contributes: the upper-cased, stripped ticker and the stripped CIK
   * padded to ten characters, when neither is empty.
   */
  function TickerEntry(row: Entry): (e: Option<(string, string)>)
    ensures e.Some? ==> e.value.0 != [] && |e.value.1| >= CikWidth
  {
    var ticker := Field(row, "ticker");
    var cik := Field(row, "cik_str");
    if ticker.None? || cik.None? then None
    else
      var t := Strip(Upper(ticker.value));
      var c := Strip(cik.value);
      if t != [] && c != [] then Some((t, ZFill(c, CikWidth))) else None
  }

  /** The entries the rows contribute, one per row. */
  function Entries(rows: seq<Entry>): (es: seq<Option<(string, string)>>)
    ensures |es| == |rows| && forall i :: 0 <= i < |rows| ==> es[i] == TickerEntry(rows[i])
  {
    seq(|rows|, i requires 0 <= i < |rows| => TickerEntry(rows[i]))
  }

  /** The map after the entries have been stored in order, a later one overwriting an earlier one. */
  function MapOf(es: seq<Option<(string, string)>>): map<string, string>
  {
    if es == [] then map[]
    else
      var m := MapOf(es[..|es| - 1]);
      var e := es[|es| - 1];
      if e.Some? then m[e.value.0 := e.value.1] else m
  }

  function TickerMapOf(rows: seq<Entry>): map<string, string>
  {
    MapOf(Entries(rows))
  }

  /** The loop of `_ticker_map` over the table's rows. */
  method BuildTickerMap(rows: seq<Entry>) returns (out: map<string, string>)
    ensures out == TickerMapOf(rows)
  {
    var es := Entries(rows);
    out := map[];
    for i := 0 to |rows|
      invariant out == MapOf(es[..i])
    {
      assert es[..i + 1][..i] == es[..i];
      var e := TickerEntry(rows[i]);
      if e.Some? {
        out := out[e.value.0 := e.value.1];
      }
    }
    assert es[..|rows|] == es;
  }

  /** Entry i stores the key t. */
  predicate Gives(es: seq<Option<(string, string)>>, i: int, t: string)
    requires 0 <= i < |es|
  {
    es[i].Some? && es[i].value.0 == t
  }

  /** The keys are exactly the tickers of the rows that contribute an entry. */
  lemma {:induction false} MapOfKeys(es: seq<Option<(string, string)>>, t: string)
    ensures t in MapOf(es) <==> exists i :: 0 <= i < |es| && Gives(es, i, t)
  {
    if es != [] {
      var init := es[..|es| - 1];
      MapOfKeys(init, t);
      var e := es[|es| - 1];
      assert MapOf(es) == if e.Some? then MapOf(init)[e.value.0 := e.value.1] else MapOf(init);
      if t in MapOf(init) {
        var i :| 0 <= i < |init| && Gives(init, i, t);
        assert Gives(es, i, t);
      } else if t in MapOf(es) {
        assert Gives(es, |es| - 1, t);
      }
      if exists i :: 0 <= i < |es| && Gives(es, i, t) {
        var i :| 0 <= i < |es| && Gives(es, i, t);
        if i < |init| {
          assert Gives(init, i, t);
        }
      }
    }
  }

  /** A ticker maps to the CIK of the last entry that gives it. */
  lemma {:induction false} MapOfLastWins(es: seq<Option<(string, string)>>, i: nat, t: string)
    requires i < |es| && Gives(es, i, t)
    requires forall j :: i < j < |es| ==> !Gives(es, j, t)
    ensures t in MapOf(es) && MapOf(es)[t] == es[i].value.1
  {
    var init := es[..|es| - 1];
    if i < |es| - 1 {
      assert Gives(init, i, t);
      forall j | i < j < |init|
        ensures !Gives(init, j, t)
      {
        assert !Gives(es, j, t);
      }
      MapOfLastWins(init, i, t);
      assert !Gives(es, |es| - 1, t);
    }
  }

  /** Every stored key and CIK is one some entry gave. */
  lemma {:induction false} MapOfFrom(es: seq<Option<(string, string)>>, t: string)
    requires t in MapOf(es)
    ensures exists i :: 0 <= i < |es| && Gives(es, i, t) && MapOf(es)[t] == es[i].value.1
  {
    var init := es[..|es| - 1];
    var e := es[|es| - 1];
    if e.Some? && e.value.0 == t {
      assert Gives(es, |es| - 1, t);
    } else {
      MapOfFrom(init, t);
      var i :| 0 <= i < |init| && Gives(init, i, t) && MapOf(init)[t] == init[i].value.1;
      assert Gives(es, i, t);
    }
  }

  /** The ticker map's keys are the tickers of the rows that give an entry. */
  lemma TickerMapKeys(rows: seq<Entry>, t: string)
    ensures t in TickerMapOf(rows) <==> exists i :: 0 <= i < |rows| && Gives(Entries(rows), i, t)
  {
    MapOfKeys(Entries(rows), t);
  }

  /** A ticker maps to the CIK of the last row that gives it. */
  lemma TickerMapLastWins(rows: seq<Entry>, i: nat, t: string)
    requires i < |rows| && Gives(Entries(rows), i, t)
    requires forall j :: i < j < |rows| ==> !Gives(Entries(rows), j, t)
    ensures t in TickerMapOf(rows) && TickerMapOf(rows)[t] == TickerEntry(rows[i]).value.1
  {
    MapOfLastWins(Entries(rows), i, t);
  }

  /** Every key is a non-empty stripped upper-case ticker and every CIK has at least ten characters. */
  lemma TickerMapEntries(rows: seq<Entry>, t: string)
    requires t in TickerMapOf(rows)
    ensures t != [] && |TickerMapOf(rows)[t]| >= CikWidth
    ensures Upper(t) == t && Strip(t) == t
  {
    MapOfFrom(Entries(rows), t);
    var i :| 0 <= i < |rows| && Gives(Entries(rows), i, t) && TickerMapOf(rows)[t] == Entries(rows)[i].value.1;
    var ticker := Field(rows[i], "ticker").value;
    assert t == Strip(Upper(ticker));
    UpperStrip(Upper(ticker));
    UpperIdempotent(ticker);
    StripIdempotent(Upper(ticker));
  }

  lemma UpperIdempotent(s: string)
    ensures Upper(Upper(s)) == Upper(s)
  {
  }

  /** `str.zfill` keeps the number a CIK spells: the padding zeros add nothing. */
  lemma {:induction false} ZerosAddNothing(n: nat, s: string)
    requires AllDigits(s)
    ensures AllDigits(Zeros(n) + s) && DigitsValue(Zeros(n) + s) == DigitsValue(s)
  {
    var z := Zeros(n) + s;
    if s == [] {
      assert z == Zeros(n);
      if n > 0 {
        assert z[..|z| - 1] == Zeros(n - 1) + s;
        assert z[|z| - 1] == '0';
        ZerosAddNothing(n - 1, s);
      }
    } else {
      assert z[..|z| - 1] == Zeros(n) + s[..|s| - 1];
      ZerosAddNothing(n, s[..|s| - 1]);
    }
  }

  /** A CIK of at most ten digits pads to exactly ten digits of the same number. */
  lemma ZFillOfDigits(s: string)
    requires AllDigits(s) && |s| <= CikWidth
    ensures var r := ZFill(s, CikWidth);
      |r| == CikWidth && AllDigits(r) && DigitsValue(r) == DigitsValue(s)
  {
    if s != [] {
      assert IsDigit(s[0]);
    }
    ZerosAddNothing(CikWidth - |s|, s);
  }

  // ---- _resolve_cik ----

  function NotFound(ticker: string): string
  {
    "SEC CIK not found for ticker '" + ticker + "'"
  }

  predicate EndsWith(s: string, suffix: string)
  {
    |suffix| <= |s| && s[|s| - |suffix|..] == suffix
  }

  /** `t.split(".")[0]`: the text before the first dot. */
  function BeforeDot(t: string): (b: string)
    ensures |b| <= |t| && b == t[..|b|] && Lacks(b, '.')
  {
    t[..Find(t, '.')]
  }

  /** The SEC spelling has a class-share suffix `.A` or `.B`. */
  predicate ClassShare(t: string)
  {
    EndsWith(t, ".A") || EndsWith(t, ".B")
  }

  /**
   * `_resolve_cik`: the SEC spelling of the ticker if the map has it; otherwise, for a class
   * share, the part before the first dot; otherwise ValueError with the ticker as given.
   */
  function ResolveCik(ticker: string, m: map<string, string>): (r: Result<string>)
  {
    Lookup(Sec(ticker), m, NotFound(ticker))
  }

  /** The lookup of an SEC spelling t, failing with the given message. */
  function Lookup(t: string, m: map<string, string>, message: string): (r: Result<string>)
    ensures t in m ==> r == Ok(m[t])
    ensures t !in m && ClassShare(t) && BeforeDot(t) in m ==> r == Ok(m[BeforeDot(t)])
    ensures t !in m && (!ClassShare(t) || BeforeDot(t) !in m) ==> r == Err(message)
    ensures r.Ok? ==> r.value in m.Values
  {
    if t in m then Ok(m[t])
    else if ClassShare(t) then
      var base := BeforeDot(t);
      if base in m then Ok(m[base]) else Err(message)
    else Err(message)
  }

  /** The fallback key is a strict prefix of the ticker: it drops at least the class letter. */
  lemma FallbackIsShorter(t: string)
    requires ClassShare(t)
    ensures |BeforeDot(t)| <= |t| - 2 && BeforeDot(t) == t[..|BeforeDot(t)|]
  {
    var k := Find(t, '.');
    assert t[|t| - 2] == '.';
    assert k <= |t| - 2;
  }

  /** Both spellings of a ticker resolve to the same CIK, or both fail. */
  lemma ResolveEitherSpelling(ticker: string, m: map<string, string>)
    ensures ResolveCik(Yf(ticker), m).Ok? == ResolveCik(ticker, m).Ok?
    ensures ResolveCik(ticker, m).Ok? ==> ResolveCik(Yf(ticker), m).value == ResolveCik(ticker, m).value
  {
    var t := Sec(ticker);
    SecOfYf(ticker);
    assert ResolveCik(Yf(ticker), m) == Lookup(t, m, NotFound(Yf(ticker)));
    assert ResolveCik(ticker, m) == Lookup(t, m, NotFound(ticker));
  }

  /** A CIK found through a map built from the ticker table is ten characters or more. */
  lemma ResolvedCikIsPadded(ticker: string, rows: seq<Entry>)
    requires ResolveCik(ticker, TickerMapOf(rows)).Ok?
    ensures |ResolveCik(ticker, TickerMapOf(rows)).value| >= CikWidth
  {
    var m := TickerMapOf(rows);
    var t := Sec(ticker);
    assert ResolveCik(ticker, m) == Lookup(t, m, NotFound(ticker));
    if t in m {
      TickerMapEntries(rows, t);
    } else {
      TickerMapEntries(rows, BeforeDot(t));
    }
  }
}
