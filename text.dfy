/**
 * The string operations the game applies to its input: JavaScript's `trim()` and
 * `toUpperCase()`, the latter restricted to the ASCII letters.
 */
module Text {

  /** The code points JavaScript's `trim()` removes: WhiteSpace and LineTerminator. */
  predicate IsWhitespace(c: char)
  {
    || c == '\t' || c == '\n' || c == '\U{000B}' || c == '\U{000C}' || c == '\r'
    || c == ' ' || c == '\U{00A0}' || c == '\U{1680}' || ('\U{2000}' <= c <= '\U{200A}')
    || c == '\U{2028}' || c == '\U{2029}' || c == '\U{202F}' || c == '\U{205F}'
    || c == '\U{3000}' || c == '\U{FEFF}'
  }

  /** Drops the leading whitespace: the result is the suffix of `s` after its longest whitespace prefix. */
  function TrimStart(s: string): (r: string)
    ensures |r| <= |s| && r == s[|s| - |r|..]
    ensures forall i :: 0 <= i < |s| - |r| ==> IsWhitespace(s[i])
    ensures r != [] ==> !IsWhitespace(r[0])
  {
    if |s| > 0 && IsWhitespace(s[0]) then TrimStart(s[1..]) else s
  }

  /** Drops the trailing whitespace: the result is the prefix of `s` before its longest whitespace suffix. */
  function TrimEnd(s: string): (r: string)
    ensures |r| <= |s| && r == s[..|r|]
    ensures forall i :: |r| <= i < |s| ==> IsWhitespace(s[i])
    ensures r != [] ==> !IsWhitespace(r[|r| - 1])
  {
    if |s| > 0 && IsWhitespace(s[|s| - 1]) then TrimEnd(s[..|s| - 1]) else s
  }

  /** `trim()`: both ends stripped of whitespace. */
  function Trim(s: string): string
  {
    TrimEnd(TrimStart(s))
  }

  predicate IsLower(c: char)
  {
    'a' <= c <= 'z'
  }

  predicate IsUpper(c: char)
  {
    'A' <= c <= 'Z'
  }

  /** Upper-cases one ASCII letter and leaves every other character alone. */
  function UpperChar(c: char): (u: char)
    ensures IsLower(c) ==> IsUpper(u) && u as int - 'A' as int == c as int - 'a' as int
    ensures !IsLower(c) ==> u == c
  {
    if IsLower(c) then (c as int - 'a' as int + 'A' as int) as char else c
  }

  /** `toUpperCase()`: same length, no lower-case letter left, and exactly the lower-case letters change. */
  function ToUpper(s: string): (r: string)
    ensures |r| == |s|
    ensures forall i :: 0 <= i < |r| ==> !IsLower(r[i])
    ensures forall i :: 0 <= i < |s| ==> (r[i] == s[i] <==> !IsLower(s[i]))
    ensures forall i :: 0 <= i < |s| ==> r[i] == UpperChar(s[i])
  {
    seq(|s|, i requires 0 <= i < |s| => UpperChar(s[i]))
  }

  /** `normalize` of src/game/evaluate.ts: trim, then upper-case. */
  function Normalize(s: string): string
  {
    ToUpper(Trim(s))
  }

  /** A word made of the letters A to Z only. */
  predicate IsUpperWord(w: string)
  {
    forall i :: 0 <= i < |w| ==> IsUpper(w[i])
  }

  /**
   * `trim()` keeps the slice of `s` that starts after its longest whitespace prefix and ends
   * before its longest whitespace suffix; everything it drops is whitespace.
   */
  lemma TrimIsSlice(s: string)
    ensures |s| - |TrimStart(s)| + |Trim(s)| <= |s|
    ensures Trim(s) == s[|s| - |TrimStart(s)|..|s| - |TrimStart(s)| + |Trim(s)|]
    ensures forall i :: 0 <= i < |s| - |TrimStart(s)| ==> IsWhitespace(s[i])
    ensures forall i :: |s| - |TrimStart(s)| + |Trim(s)| <= i < |s| ==> IsWhitespace(s[i])
    ensures Trim(s) != [] ==> !IsWhitespace(Trim(s)[0]) && !IsWhitespace(Trim(s)[|Trim(s)| - 1])
  {
    TrimSlice(s);
    TrimDropsWhitespace(s);
    TrimEnds(s);
  }

  /** The bounds and contents of the trimmed slice. */
  lemma TrimSlice(s: string)
    ensures |s| - |TrimStart(s)| + |Trim(s)| <= |s|
    ensures Trim(s) == s[|s| - |TrimStart(s)|..|s| - |TrimStart(s)| + |Trim(s)|]
  {
    var t0 := TrimStart(s);
    var t := TrimEnd(t0);
    assert Trim(s) == t;
    var d := |s| - |t0|;
    assert t0 == s[d..];
    assert t == t0[..|t|];
    assert t0[..|t|] == s[d..d + |t|];
  }

  /** Both dropped ends are whitespace. */
  lemma TrimDropsWhitespace(s: string)
    ensures forall i :: 0 <= i < |s| - |TrimStart(s)| ==> IsWhitespace(s[i])
    ensures forall i :: |s| - |TrimStart(s)| + |Trim(s)| <= i < |s| ==> IsWhitespace(s[i])
  {
    var t0 := TrimStart(s);
    var t := TrimEnd(t0);
    assert Trim(s) == t;
    var d := |s| - |t0|;
    assert t0 == s[d..];
    forall i | d + |t| <= i < |s|
      ensures IsWhitespace(s[i])
    {
      assert |t| <= i - d < |t0|;
      assert IsWhitespace(t0[i - d]);
      assert s[i] == t0[i - d];
    }
  }

  /** The trimmed string neither starts nor ends with whitespace. */
  lemma TrimEnds(s: string)
    ensures Trim(s) != [] ==> !IsWhitespace(Trim(s)[0]) && !IsWhitespace(Trim(s)[|Trim(s)| - 1])
  {
    var t0 := TrimStart(s);
    var t := TrimEnd(t0);
    assert Trim(s) == t;
    if t != [] {
      assert !IsWhitespace(t0[0]);
      assert t[0] == t0[0];
      assert !IsWhitespace(t[|t| - 1]);
    }
  }

  /** Upper-casing neither creates nor removes whitespace. */
  lemma UpperCharKeepsWhitespace(c: char)
    ensures IsWhitespace(UpperChar(c)) <==> IsWhitespace(c)
  {
  }

  /** A string with no whitespace at either end is its own trim. */
  lemma TrimOfTrimmed(t: string)
    requires t != [] ==> !IsWhitespace(t[0]) && !IsWhitespace(t[|t| - 1])
    ensures Trim(t) == t
  {
    assert TrimStart(t) == t;
  }

  /** A string with no lower-case letter is its own upper-casing. */
  lemma ToUpperOfUpper(t: string)
    requires forall i :: 0 <= i < |t| ==> !IsLower(t[i])
    ensures ToUpper(t) == t
  {
  }

  /**
   * What `normalize` yields: the trimmed slice of `s`, each character upper-cased, with no
   * lower-case letter left and no whitespace at either end.
   */
  lemma NormalizeIsTrimmedUpper(s: string)
    ensures |Normalize(s)| == |Trim(s)| <= |s|
    ensures forall i :: 0 <= i < |Normalize(s)| ==> Normalize(s)[i] == UpperChar(s[|s| - |TrimStart(s)| + i])
    ensures forall i :: 0 <= i < |Normalize(s)| ==> !IsLower(Normalize(s)[i])
    ensures Normalize(s) != [] ==> !IsWhitespace(Normalize(s)[0]) && !IsWhitespace(Normalize(s)[|Normalize(s)| - 1])
  {
    TrimIsSlice(s);
    var t := Trim(s);
    var n := ToUpper(t);
    var d := |s| - |TrimStart(s)|;
    forall i | 0 <= i < |n|
      ensures n[i] == UpperChar(s[d + i])
    {
      assert t[i] == s[d + i];
    }
    if n != [] {
      UpperCharKeepsWhitespace(t[0]);
      UpperCharKeepsWhitespace(t[|t| - 1]);
    }
  }

  /** Normalizing a word of capital letters leaves it as it is. */
  lemma NormalizeUpperWord(w: string)
    requires IsUpperWord(w)
    ensures Normalize(w) == w
  {
    assert Trim(w) == w by {
      if w != [] {
        assert IsUpper(w[0]) && IsUpper(w[|w| - 1]);
      }
      TrimOfTrimmed(w);
    }
    assert ToUpper(w) == w by {
      ToUpperOfUpper(w);
    }
  }

  /** Normalizing twice is normalizing once. */
  lemma NormalizeIdempotent(s: string)
    ensures Normalize(Normalize(s)) == Normalize(s)
  {
    NormalizeIsTrimmedUpper(s);
    var n := Normalize(s);
    TrimOfTrimmed(n);
    ToUpperOfUpper(n);
  }
}
