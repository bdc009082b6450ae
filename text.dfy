/**
 * The string operations the ingester uses: Python's `str.upper` (for ASCII letters),
 * `str.replace` of one character, and `str.strip` with no argument.
 */
module Text {
  /** The characters `str.isspace` accepts, which `str.strip()` removes. */
  const Whitespace: set<char> := {
    ' ', '\t', '\n', '\r', '\U{B}', '\U{C}', '\U{1C}', '\U{1D}', '\U{1E}', '\U{1F}', '\U{85}', '\U{A0}',
    '\U{1680}', '\U{2000}', '\U{2001}', '\U{2002}', '\U{2003}', '\U{2004}', '\U{2005}', '\U{2006}',
    '\U{2007}', '\U{2008}', '\U{2009}', '\U{200A}', '\U{2028}', '\U{2029}', '\U{202F}', '\U{205F}', '\U{3000}'
  }

  predicate IsSpace(c: char)
  {
    c in Whitespace
  }

  /** The separators of share classes are not whitespace. */
  lemma SeparatorsAreNotSpace()
    ensures !IsSpace('.') && !IsSpace('-')
  {
  }

  function UpperChar(c: char): char
  {
    if 'a' <= c <= 'z' then (c as int - 32) as char else c
  }

  /** Applies f to every character. */
  function MapChars(s: string, f: char -> char): (r: string)
    ensures |r| == |s| && forall i :: 0 <= i < |s| ==> r[i] == f(s[i])
  {
    seq(|s|, i requires 0 <= i < |s| => f(s[i]))
  }

  /** `str.upper`, for the ASCII letters. */
  function Upper(s: string): string
  {
    MapChars(s, UpperChar)
  }

  /** The character map that turns a into b and leaves every other character alone. */
  function Sub(a: char, b: char): char -> char
  {
    c => if c == a then b else c
  }

  /** `s.replace(a, b)` for single characters. */
  function Replace(s: string, a: char, b: char): string
  {
    MapChars(s, Sub(a, b))
  }

  /** `str.lstrip()`: a suffix of s that does not start with whitespace. */
  function LStrip(s: string): (r: string)
    ensures |r| <= |s| && r == s[|s| - |r|..]
    ensures r == [] || !IsSpace(r[0])
  {
    if s != [] && IsSpace(s[0]) then LStrip(s[1..]) else s
  }

  /** `str.rstrip()`: a prefix of s that does not end with whitespace. */
  function RStrip(s: string): (r: string)
    ensures |r| <= |s| && r == s[..|r|]
    ensures r == [] || !IsSpace(r[|r| - 1])
  {
    if s != [] && IsSpace(s[|s| - 1]) then RStrip(s[..|s| - 1]) else s
  }

  /** What `lstrip` removes is whitespace. */
  lemma {:induction false} LStripRemovesSpace(s: string, k: nat)
    requires k < |s| - |LStrip(s)|
    ensures IsSpace(s[k])
  {
    if k > 0 {
      LStripRemovesSpace(s[1..], k - 1);
    }
  }

  /** What `rstrip` removes is whitespace. */
  lemma {:induction false} RStripRemovesSpace(s: string, k: nat)
    requires |RStrip(s)| <= k < |s|
    ensures IsSpace(s[k])
  {
    if k < |s| - 1 {
      RStripRemovesSpace(s[..|s| - 1], k);
    }
  }

  /** `str.strip()`: a stretch of s with no whitespace at either end. */
  function Strip(s: string): (r: string)
    ensures |r| <= |s|
    ensures r == [] || (!IsSpace(r[0]) && !IsSpace(r[|r| - 1]))
  {
    var l := LStrip(s);
    var r := RStrip(l);
    assert r != [] ==> r[0] == l[0];
    r
  }

  /** The characters of `s.strip()` are characters of s, in place from the first one kept. */
  lemma StripIsSlice(s: string)
    ensures var d := |s| - |LStrip(s)|;
      d + |Strip(s)| <= |s| && Strip(s) == s[d..d + |Strip(s)|]
  {
  }

  /** `s.strip()` is empty exactly when s is all whitespace. */
  lemma StripBlank(s: string)
    ensures Strip(s) == [] <==> forall k :: 0 <= k < |s| ==> IsSpace(s[k])
  {
    var l := LStrip(s);
    if Strip(s) == [] {
      if l != [] {
        RStripRemovesSpace(l, 0);
      }
      assert l == [];
      forall k | 0 <= k < |s|
        ensures IsSpace(s[k])
      {
        LStripRemovesSpace(s, k);
      }
    } else {
      var d := |s| - |l|;
      assert s[d] == l[0];
    }
  }

  /** Stripping twice is stripping once. */
  lemma StripIdempotent(s: string)
    ensures Strip(Strip(s)) == Strip(s)
  {
    var r := Strip(s);
    assert LStrip(r) == r;
    assert RStrip(r) == r;
  }

  /** A character map that keeps whitespace and non-whitespace apart commutes with `lstrip`. */
  lemma {:induction false} LStripMap(s: string, f: char -> char)
    requires forall c :: IsSpace(f(c)) <==> IsSpace(c)
    ensures LStrip(MapChars(s, f)) == MapChars(LStrip(s), f)
  {
    if s != [] && IsSpace(s[0]) {
      assert MapChars(s, f)[1..] == MapChars(s[1..], f);
      LStripMap(s[1..], f);
    }
  }

  lemma {:induction false} RStripMap(s: string, f: char -> char)
    requires forall c :: IsSpace(f(c)) <==> IsSpace(c)
    ensures RStrip(MapChars(s, f)) == MapChars(RStrip(s), f)
  {
    if s != [] && IsSpace(s[|s| - 1]) {
      assert MapChars(s, f)[..|s| - 1] == MapChars(s[..|s| - 1], f);
      RStripMap(s[..|s| - 1], f);
    }
  }

  /** So it commutes with `strip`. */
  lemma StripMap(s: string, f: char -> char)
    requires forall c :: IsSpace(f(c)) <==> IsSpace(c)
    ensures Strip(MapChars(s, f)) == MapChars(Strip(s), f)
  {
    LStripMap(s, f);
    RStripMap(LStrip(s), f);
  }

  /** Neither upper-casing nor a replacement between non-space characters moves whitespace. */
  lemma UpperKeepsSpace()
    ensures forall c :: IsSpace(UpperChar(c)) <==> IsSpace(c)
  {
  }

  lemma SubKeepsSpace(a: char, b: char)
    requires !IsSpace(a) && !IsSpace(b)
    ensures forall c :: IsSpace(Sub(a, b)(c)) <==> IsSpace(c)
  {
  }
}
