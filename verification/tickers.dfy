/** Normalisation of the ticker typed into the intake form: the text is
    upper-cased and then stripped of surrounding whitespace (app.py:16). */
module Tickers {

  /** The characters Python's `str.isspace` accepts, which is the set
      `str.strip()` removes when called without arguments. */
  const Whitespace: set<char> := {
    '\t', '\n', '\U{0B}', '\U{0C}', '\r', '\U{1C}', '\U{1D}', '\U{1E}', '\U{1F}', ' ',
    '\U{85}', '\U{A0}', '\U{1680}',
    '\U{2000}', '\U{2001}', '\U{2002}', '\U{2003}', '\U{2004}', '\U{2005}',
    '\U{2006}', '\U{2007}', '\U{2008}', '\U{2009}', '\U{200A}',
    '\U{2028}', '\U{2029}', '\U{202F}', '\U{205F}', '\U{3000}'
  }

  predicate IsSpace(c: char) {
    c in Whitespace
  }

  predicate IsLowerAscii(c: char) {
    'a' <= c <= 'z'
  }

  /** `str.upper` restricted to ASCII letters; every other character is kept. */
  function UpperChar(c: char): (u: char)
    ensures !IsLowerAscii(u)
    ensures IsLowerAscii(c) ==> u as int == c as int - 32
    ensures IsSpace(u) <==> IsSpace(c)
    ensures !IsLowerAscii(c) ==> u == c
  {
    if IsLowerAscii(c) then (c as int - 32) as char else c
  }

  function Upper(s: string): (r: string)
    ensures |r| == |s|
    ensures forall k :: 0 <= k < |s| ==> r[k] == UpperChar(s[k])
  {
    if s == [] then [] else [UpperChar(s[0])] + Upper(s[1..])
  }

  /** The left scan of `str.strip()`: the first index at or after `i` that
      holds a non-whitespace character, or `|s|` if there is none. */
  function SkipSpaces(s: string, i: nat): (n: nat)
    requires i <= |s|
    ensures i <= n <= |s|
    ensures forall k :: i <= k < n ==> IsSpace(s[k])
    ensures n < |s| ==> !IsSpace(s[n])
    decreases |s| - i
  {
    if i < |s| && IsSpace(s[i]) then SkipSpaces(s, i + 1) else i
  }

  /** The right scan of `str.strip()`: moving down from `j`, but not below
      `lo`, past trailing whitespace. */
  function BackSpaces(s: string, lo: nat, j: nat): (e: nat)
    requires lo <= j <= |s|
    ensures lo <= e <= j
    ensures forall k :: e <= k < j ==> IsSpace(s[k])
    ensures e > lo ==> !IsSpace(s[e - 1])
    decreases j
  {
    if j > lo && IsSpace(s[j - 1]) then BackSpaces(s, lo, j - 1) else j
  }

  /** `str.strip()`: the slice of `s` between its leading and its trailing
      whitespace. It neither starts nor ends with whitespace, and it is
      empty exactly when `s` is all whitespace. */
  function Strip(s: string): (r: string)
    ensures SkipSpaces(s, 0) + |r| <= |s|
    ensures forall k :: 0 <= k < |r| ==> r[k] == s[SkipSpaces(s, 0) + k]
    ensures forall k :: SkipSpaces(s, 0) + |r| <= k < |s| ==> IsSpace(s[k])
    ensures r != [] ==> !IsSpace(r[0]) && !IsSpace(r[|r| - 1])
    ensures r == [] <==> forall k :: 0 <= k < |s| ==> IsSpace(s[k])
  {
    var a := SkipSpaces(s, 0);
    var b := BackSpaces(s, a, |s|);
    assert a < b ==> !IsSpace(s[a]);
    s[a..b]
  }

  /** A ticker in stored form: no lower-case ASCII letter and no
      surrounding whitespace. */
  predicate IsNormal(t: string) {
    && (forall k :: 0 <= k < |t| ==> !IsLowerAscii(t[k]))
    && (t != [] ==> !IsSpace(t[0]) && !IsSpace(t[|t| - 1]))
  }

  /** The ticker as stored: `text.upper().strip()`. It is the typed text
      after its leading whitespace, upper-cased, up to where only trailing
      whitespace is left; and it is in stored form. */
  function Normalize(raw: string): (t: string)
    ensures SkipSpaces(raw, 0) + |t| <= |raw|
    ensures forall k :: 0 <= k < |t| ==> t[k] == UpperChar(raw[SkipSpaces(raw, 0) + k])
    ensures forall k :: SkipSpaces(raw, 0) + |t| <= k < |raw| ==> IsSpace(raw[k])
    ensures IsNormal(t)
  {
    StripUpperKeepsText(raw);
    StripUpperIsNormal(raw);
    Strip(Upper(raw))
  }

  /** Upper-casing does not move the first non-space character. */
  lemma {:induction false} SkipSpacesUpper(raw: string)
    ensures SkipSpaces(Upper(raw), 0) == SkipSpaces(raw, 0)
  {
    var u := Upper(raw);
    var a, b := SkipSpaces(u, 0), SkipSpaces(raw, 0);
    assert a == b;
  }

  /** `text.upper().strip()` is the upper-cased run of the typed text between
      its leading and its trailing whitespace. */
  lemma {:induction false} StripUpperKeepsText(raw: string)
    ensures SkipSpaces(raw, 0) + |Strip(Upper(raw))| <= |raw|
    ensures forall k :: 0 <= k < |Strip(Upper(raw))| ==>
      Strip(Upper(raw))[k] == UpperChar(raw[SkipSpaces(raw, 0) + k])
    ensures forall k :: SkipSpaces(raw, 0) + |Strip(Upper(raw))| <= k < |raw| ==> IsSpace(raw[k])
  {
    var u := Upper(raw);
    var t := Strip(u);
    SkipSpacesUpper(raw);
    forall k | SkipSpaces(raw, 0) + |t| <= k < |raw|
      ensures IsSpace(raw[k])
    {
      assert IsSpace(u[k]);
    }
  }

  lemma {:induction false} StripUpperIsNormal(raw: string)
    ensures IsNormal(Strip(Upper(raw)))
  {
    var u := Upper(raw);
    var t := Strip(u);
    forall k | 0 <= k < |t|
      ensures !IsLowerAscii(t[k])
    {
      var j := SkipSpaces(u, 0) + k;
      assert t[k] == u[j] == UpperChar(raw[j]);
    }
  }

  lemma {:induction false} UpperFixesUpperCase(s: string)
    requires forall k :: 0 <= k < |s| ==> !IsLowerAscii(s[k])
    ensures Upper(s) == s
  {
  }

  lemma {:induction false} StripFixesTrimmed(s: string)
    requires s != [] ==> !IsSpace(s[0]) && !IsSpace(s[|s| - 1])
    ensures Strip(s) == s
  {
    if s != [] {
      assert SkipSpaces(s, 0) == 0;
      assert BackSpaces(s, 0, |s|) == |s|;
    }
  }

  /** Tickers in stored form are exactly the fixed points of normalisation. */
  lemma {:induction false} NormalizeFixesNormal(t: string)
    ensures Normalize(t) == t <==> IsNormal(t)
  {
    if IsNormal(t) {
      UpperFixesUpperCase(t);
      StripFixesTrimmed(t);
    }
  }

  /** Normalising an already stored ticker changes nothing, so a ticker read
      back from the store and re-submitted names the same lots. */
  lemma {:induction false} NormalizeIdempotent(raw: string)
    ensures Normalize(Normalize(raw)) == Normalize(raw)
  {
    NormalizeFixesNormal(Normalize(raw));
  }

  /** A blank or whitespace-only entry normalises to the empty ticker, and
      any entry with a visible character does not. */
  lemma NormalizeEmptyIffBlank(raw: string)
    ensures Normalize(raw) == [] <==> forall k :: 0 <= k < |raw| ==> IsSpace(raw[k])
  {
    var u := Upper(raw);
    assert forall k :: 0 <= k < |raw| ==> (IsSpace(u[k]) <==> IsSpace(raw[k]));
  }

  lemma NormalizeExample()
    ensures Normalize("  aapl\t") == "AAPL"
  {
    var u := Upper("  aapl\t");
    assert UpperChar('a') == 'A' && UpperChar('p') == 'P' && UpperChar('l') == 'L';
    assert u[0] == ' ' && u[1] == ' ' && u[2] == 'A' && u[3] == 'A';
    assert u[4] == 'P' && u[5] == 'L' && u[6] == '\t';
    assert u == "  AAPL\t";
    StripExample();
  }

  lemma StripExample()
    ensures Strip("  AAPL\t") == "AAPL"
  {
    var s := "  AAPL\t";
    assert IsSpace(s[0]) && IsSpace(s[1]) && !IsSpace(s[2]);
    assert SkipSpaces(s, 0) == SkipSpaces(s, 1) == SkipSpaces(s, 2) == 2;
    assert IsSpace(s[6]) && !IsSpace(s[5]);
    assert BackSpaces(s, 2, 7) == BackSpaces(s, 2, 6) == 6;
    assert s[2..6] == "AAPL";
  }

}
