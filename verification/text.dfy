/**
 Whitespace and trimming as `String.prototype.trim` defines them in
 ECMAScript: a string is trimmed by removing the longest prefix and the
 longest suffix made only of WhiteSpace and LineTerminator code points.
 */
module Text {

  /** The code points ECMAScript's WhiteSpace and LineTerminator productions
      list, one by one: TAB, VT, FF, ZWNBSP, the Zs spaces, and LF, CR, LS, PS. */
  const WhitespaceTable: set<char> := {
    '\t', '\U{000B}', '\U{000C}', '\U{FEFF}',
    ' ', '\U{00A0}', '\U{1680}',
    '\U{2000}', '\U{2001}', '\U{2002}', '\U{2003}', '\U{2004}', '\U{2005}',
    '\U{2006}', '\U{2007}', '\U{2008}', '\U{2009}', '\U{200A}',
    '\U{202F}', '\U{205F}', '\U{3000}',
    '\n', '\r', '\U{2028}', '\U{2029}'
  }

  /** A character `trim` removes, tested by code-point ranges; it is
      exactly membership in the table above. */
  function IsWhitespace(c: char): (b: bool)
    ensures b <==> c in WhitespaceTable
  {
    || ('\t' <= c <= '\r')   // TAB, LF, VT, FF, CR
    || c == ' ' || c == '\U{00A0}' || c == '\U{1680}'
    || ('\U{2000}' <= c <= '\U{200A}')
    || c == '\U{2028}' || c == '\U{2029}' || c == '\U{202F}' || c == '\U{205F}'
    || c == '\U{3000}' || c == '\U{FEFF}'
  }

  /** Every character is whitespace (the empty string included): exactly
      the strings whose trim is `""`, which JavaScript treats as false. */
  predicate IsBlank(s: string) {
    forall i :: 0 <= i < |s| ==> IsWhitespace(s[i])
  }

  /** Neither the first nor the last character is whitespace. */
  predicate IsTrimmed(s: string) {
    s == [] || (!IsWhitespace(s[0]) && !IsWhitespace(s[|s| - 1]))
  }

  /** The first index at or after `from` that does not hold whitespace, or
      `|s|` if there is none. */
  function SkipStart(s: string, from: nat): (i: nat)
    requires from <= |s|
    ensures from <= i <= |s|
    ensures forall k :: from <= k < i ==> IsWhitespace(s[k])
    ensures i < |s| ==> !IsWhitespace(s[i])
    decreases |s| - from
  {
    if from < |s| && IsWhitespace(s[from]) then SkipStart(s, from + 1) else from
  }

  /** The index just after the last character before `hi` and not before
      `lo` that does not hold whitespace, or `lo` if there is none. */
  function SkipEnd(s: string, lo: nat, hi: nat): (j: nat)
    requires lo <= hi <= |s|
    ensures lo <= j <= hi
    ensures forall k :: j <= k < hi ==> IsWhitespace(s[k])
    ensures lo < j ==> !IsWhitespace(s[j - 1])
    decreases hi
  {
    if lo < hi && IsWhitespace(s[hi - 1]) then SkipEnd(s, lo, hi - 1) else hi
  }

  /** `s.trim()`: the result is a contiguous piece of `s`, everything cut
      away around it is whitespace, it has no whitespace at either end, and
      it is empty exactly when `s` is blank. */
  function Trim(s: string): (r: string)
    ensures IsTrimmed(r)
    ensures exists i :: 0 <= i <= |s| - |r| && r == s[i..][..|r|]
                        && (forall k :: 0 <= k < i ==> IsWhitespace(s[k]))
                        && (forall k :: i + |r| <= k < |s| ==> IsWhitespace(s[k]))
    ensures r == [] <==> IsBlank(s)
  {
    var i := SkipStart(s, 0);
    var j := SkipEnd(s, i, |s|);
    assert i < j ==> s[i..j][0] == s[i] && s[i..j][j - i - 1] == s[j - 1];
    assert s[i..j] == s[i..][..j - i];
    s[i..j]
  }

  /** The trim of a string is characterised by its contract: whenever `s`
      is a trimmed core surrounded by blanks, that core is `Trim(s)`. */
  lemma TrimUnique(a: string, core: string, b: string)
    requires IsBlank(a) && IsBlank(b) && IsTrimmed(core)
    ensures Trim(a + core + b) == core
  {
    var s := a + core + b;
    if core == [] {
      assert IsBlank(s) by {
        forall k | 0 <= k < |s|
          ensures IsWhitespace(s[k])
        {
          if k < |a| { assert s[k] == a[k]; } else { assert s[k] == b[k - |a|]; }
        }
      }
    } else {
      var i := SkipStart(s, 0);
      var j := SkipEnd(s, i, |s|);
      var m := |a| + |core|;
      assert s[|a|] == core[0] && s[m - 1] == core[|core| - 1];
      assert forall k :: 0 <= k < |a| ==> s[k] == a[k];
      assert forall k :: m <= k < |s| ==> s[k] == b[k - m];
      assert i == |a|;
      assert j == m;
      assert s[i..j] == core;
    }
  }

  /** A trimmed string is its own trim. */
  lemma TrimOfTrimmed(s: string)
    requires IsTrimmed(s)
    ensures Trim(s) == s
  {
  }

  /** Trimming twice is trimming once. */
  lemma TrimIdempotent(s: string)
    ensures Trim(Trim(s)) == Trim(s)
  {
  }

}
