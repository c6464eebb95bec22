/**
 * The two string operations of the application whose exact behaviour matters:
 * `String.prototype.replace` with a string pattern (only the FIRST occurrence
 * is replaced) and `String.prototype.trim`.
 */
module JsStrings {

  /** `pat` occurs in `s` starting at index `i`. */
  predicate OccursAt(s: string, pat: string, i: nat) {
    i + |pat| <= |s| && s[i..i + |pat|] == pat
  }

  /** `s.indexOf(pat, from)`: the least index at or after `from` where `pat` occurs, or -1. */
  function IndexOfFrom(s: string, pat: string, from: nat): (r: int)
    requires from <= |s|
    decreases |s| - from
    ensures r == -1 || (from <= r <= |s| && OccursAt(s, pat, r))
    ensures r == -1 ==> forall i :: from <= i <= |s| ==> !OccursAt(s, pat, i)
    ensures r != -1 ==> forall i :: from <= i < r ==> !OccursAt(s, pat, i)
  {
    if from + |pat| > |s| then -1
    else if s[from..from + |pat|] == pat then from
    else IndexOfFrom(s, pat, from + 1)
  }

  /** `s.indexOf(pat)`. */
  function IndexOf(s: string, pat: string): int {
    IndexOfFrom(s, pat, 0)
  }

  /** `s.replace(pat, '')`: the first occurrence of `pat` is cut out; later ones stay. */
  function RemoveFirst(s: string, pat: string): (r: string)
    ensures |r| == |s| || |r| == |s| - |pat|
  {
    var i := IndexOf(s, pat);
    if i < 0 then s else s[..i] + s[i + |pat|..]
  }

  /** When `pat` does not occur, `replace` returns the string unchanged. */
  lemma RemoveFirstAbsent(s: string, pat: string)
    requires forall i :: 0 <= i <= |s| ==> !OccursAt(s, pat, i)
    ensures RemoveFirst(s, pat) == s
  {
  }

  /** `replace` cuts out exactly the leftmost occurrence. */
  lemma RemoveFirstCutsLeftmost(s: string, pat: string, i: nat)
    requires OccursAt(s, pat, i)
    requires forall j :: 0 <= j < i ==> !OccursAt(s, pat, j)
    ensures RemoveFirst(s, pat) == s[..i] + s[i + |pat|..]
  {
  }

  /** Removing ".zip" from `base + ".zip"` gives `base` back whenever `base` itself
      does not contain ".zip": no occurrence can start inside `base` and run into
      the suffix, because '.' appears in ".zip" only at its first position. */
  lemma {:induction false} StripZipSuffix(base: string)
    requires forall i :: 0 <= i <= |base| ==> !OccursAt(base, ".zip", i)
    ensures RemoveFirst(base + ".zip", ".zip") == base
  {
    var s := base + ".zip";
    var n := |base|;
    assert OccursAt(s, ".zip", n) by { assert s[n..n + 4] == ".zip"; }
    forall j | 0 <= j < n
      ensures !OccursAt(s, ".zip", j)
    {
      if j + 4 <= n {
        assert s[j..j + 4] == base[j..j + 4] && !OccursAt(base, ".zip", j);
      } else {
        // an occurrence at j would put the '.' at index n inside "zip"
        assert s[n] == '.' && s[j..j + 4][n - j] == s[n];
        assert 1 <= n - j <= 3 && ".zip"[n - j] != '.';
      }
    }
    RemoveFirstCutsLeftmost(s, ".zip", n);
    assert s[..n] == base;
  }

  /** The characters `String.prototype.trim` strips: ECMAScript WhiteSpace and LineTerminator. */
  predicate IsJsSpace(c: char) {
    c == '\t' || c == '\n' || c == '\U{B}' || c == '\U{C}' || c == '\r' || c == ' '
    || c == '\U{A0}' || c == '\U{1680}' || ('\U{2000}' <= c <= '\U{200A}')
    || c == '\U{2028}' || c == '\U{2029}' || c == '\U{202F}' || c == '\U{205F}'
    || c == '\U{3000}' || c == '\U{FEFF}'
  }

  /** Leading white space removed. */
  function TrimStart(s: string): (r: string)
    ensures |r| <= |s| && r == s[|s| - |r|..]
    ensures forall i :: 0 <= i < |s| - |r| ==> IsJsSpace(s[i])
    ensures r == [] || !IsJsSpace(r[0])
  {
    if s == [] || !IsJsSpace(s[0]) then s else TrimStart(s[1..])
  }

  /** Trailing white space removed. */
  function TrimEnd(s: string): (r: string)
    ensures |r| <= |s| && r == s[..|r|]
    ensures forall i :: |r| <= i < |s| ==> IsJsSpace(s[i])
    ensures r == [] || !IsJsSpace(r[|r| - 1])
  {
    if s == [] || !IsJsSpace(s[|s| - 1]) then s else TrimEnd(s[..|s| - 1])
  }

  /** `s.trim()`. */
  function Trim(s: string): string {
    TrimEnd(TrimStart(s))
  }

  /** `s.trim()` is empty exactly when every character of `s` is white space. */
  lemma TrimEmptyIffAllSpace(s: string)
    ensures Trim(s) == [] <==> forall k :: 0 <= k < |s| ==> IsJsSpace(s[k])
  {
    var t := TrimStart(s);
    if !forall k :: 0 <= k < |s| ==> IsJsSpace(s[k]) {
      var k :| 0 <= k < |s| && !IsJsSpace(s[k]);
      assert t != [];
      assert !IsJsSpace(t[0]);
    }
  }
}
