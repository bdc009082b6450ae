/**
 * The two ticker spellings of src/ingest_sec.py: Yahoo Finance writes class shares with a
 * dash (`BRK-B`), the SEC with a dot (`BRK.B`).
 */
module Tickers {
  import opened Text

  /** `_normalize_ticker_for_yf`: dots become dashes, then upper-case, then strip. */
  function Yf(t: string): string
  {
    Strip(Upper(Replace(t, '.', '-')))
  }

  /** `_normalize_ticker_for_sec`: dashes become dots, then upper-case, then strip. */
  function Sec(t: string): string
  {
    Strip(Upper(Replace(t, '-', '.')))
  }

  /** No character of s is c. */
  predicate Lacks(s: string, c: char)
  {
    forall i :: 0 <= i < |s| ==> s[i] != c
  }

  /** Stripping keeps a character out if it was out. */
  lemma StripLacks(s: string, c: char)
    requires Lacks(s, c)
    ensures Lacks(Strip(s), c)
  {
    StripIsSlice(s);
  }

  /** Upper-casing introduces no character that is not a capital letter. */
  lemma UpperLacks(s: string, c: char)
    requires Lacks(s, c) && !('A' <= c <= 'Z')
    ensures Lacks(Upper(s), c)
  {
  }

  /** Replacing a by b leaves no a behind. */
  lemma ReplaceLacks(s: string, a: char, b: char)
    requires a != b
    ensures Lacks(Replace(s, a, b), a)
  {
  }

  /** The Yahoo spelling has no dot. */
  lemma YfHasNoDot(t: string)
    ensures Lacks(Yf(t), '.')
  {
    ReplaceLacks(t, '.', '-');
    UpperLacks(Replace(t, '.', '-'), '.');
    StripLacks(Upper(Replace(t, '.', '-')), '.');
  }

  /** The SEC spelling has no dash. */
  lemma SecHasNoDash(t: string)
    ensures Lacks(Sec(t), '-')
  {
    ReplaceLacks(t, '-', '.');
    UpperLacks(Replace(t, '-', '.'), '-');
    StripLacks(Upper(Replace(t, '-', '.')), '-');
  }

  /** Upper-casing and the replacements move no whitespace, so each commutes with strip. */
  lemma StripCommutes(s: string)
    ensures Upper(Strip(s)) == Strip(Upper(s))
    ensures Replace(Strip(s), '.', '-') == Strip(Replace(s, '.', '-'))
    ensures Replace(Strip(s), '-', '.') == Strip(Replace(s, '-', '.'))
  {
    UpperStrip(s);
    SeparatorsAreNotSpace();
    ReplaceStrip(s, '.', '-');
    ReplaceStrip(s, '-', '.');
  }

  lemma UpperStrip(s: string)
    ensures Upper(Strip(s)) == Strip(Upper(s))
  {
    UpperKeepsSpace();
    StripMap(s, UpperChar);
  }

  lemma ReplaceStrip(s: string, a: char, b: char)
    requires !IsSpace(a) && !IsSpace(b)
    ensures Replace(Strip(s), a, b) == Strip(Replace(s, a, b))
  {
    SubKeepsSpace(a, b);
    StripMap(s, Sub(a, b));
  }

  /** Normalising for Yahoo twice is normalising once. */
  lemma YfIdempotent(t: string)
    ensures Yf(Yf(t)) == Yf(t)
  {
    var m := Upper(Replace(t, '.', '-'));
    StripCommutes(m);
    StripCommutes(Replace(m, '.', '-'));
    assert Upper(Replace(m, '.', '-')) == m;
    StripIdempotent(m);
  }

  /** Normalising for the SEC twice is normalising once. */
  lemma SecIdempotent(t: string)
    ensures Sec(Sec(t)) == Sec(t)
  {
    var m := Upper(Replace(t, '-', '.'));
    StripCommutes(m);
    StripCommutes(Replace(m, '-', '.'));
    assert Upper(Replace(m, '-', '.')) == m;
    StripIdempotent(m);
  }

  /** The SEC spelling of the Yahoo spelling is the SEC spelling. */
  lemma SecOfYf(t: string)
    ensures Sec(Yf(t)) == Sec(t)
  {
    var m := Upper(Replace(t, '.', '-'));
    StripCommutes(m);
    StripCommutes(Replace(m, '-', '.'));
    assert Upper(Replace(m, '-', '.')) == Upper(Replace(t, '-', '.'));
    StripIdempotent(Upper(Replace(m, '-', '.')));
  }

  /** The Yahoo spelling of the SEC spelling is the Yahoo spelling. */
  lemma YfOfSec(t: string)
    ensures Yf(Sec(t)) == Yf(t)
  {
    var m := Upper(Replace(t, '-', '.'));
    StripCommutes(m);
    StripCommutes(Replace(m, '.', '-'));
    assert Upper(Replace(m, '.', '-')) == Upper(Replace(t, '.', '-'));
    StripIdempotent(Upper(Replace(m, '.', '-')));
  }
}
