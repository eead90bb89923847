/** The few JavaScript string semantics the modelled code relies on:
    truthiness of a nullable string (the difference between `a || b` and
    `a ?? b`), `String.prototype.trim`, and `s.split(" ")[0]`. */
module Js {
  import opened Wrappers

  /** A nullable string is truthy iff it is present and not the empty string. */
  predicate Truthy(s: Option<string>) {
    s.Some? && s.value != ""
  }

  /** `a || b` for a nullable string `a`: an empty string falls through to `b`. */
  function Or(a: Option<string>, b: string): string {
    if Truthy(a) then a.value else b
  }

  /** `a ?? b` for a nullable string `a`: only null/undefined fall through. */
  function Coalesce(a: Option<string>, b: string): string {
    a.GetOr(b)
  }

  /** The characters `trim` removes: ECMAScript WhiteSpace and LineTerminator
      (tab, line feed, vertical tab, form feed, carriage return, space, no-break
      space, the space separators of Unicode category Zs, the line and
      paragraph separators, and the byte order mark). */
  predicate IsWhitespace(c: char) {
    || c == '\t' || c == '\n' || c == '\U{B}' || c == '\U{C}' || c == '\r'
    || c == ' ' || c == '\U{A0}' || c == '\U{1680}'
    || ('\U{2000}' <= c <= '\U{200A}')
    || c == '\U{2028}' || c == '\U{2029}' || c == '\U{202F}' || c == '\U{205F}'
    || c == '\U{3000}' || c == '\U{FEFF}'
  }

  /** Every character of `s` is whitespace (the empty string included). */
  predicate Blank(s: string) {
    forall i :: 0 <= i < |s| ==> IsWhitespace(s[i])
  }

  /** The index of the first non-whitespace character of `s` at or after
      `i`, or `|s|` when there is none. */
  function StartIndex(s: string, i: nat): (k: nat)
    requires i <= |s|
    ensures i <= k <= |s|
    ensures forall m :: i <= m < k ==> IsWhitespace(s[m])
    ensures k < |s| ==> !IsWhitespace(s[k])
    decreases |s| - i
  {
    if i < |s| && IsWhitespace(s[i]) then StartIndex(s, i + 1) else i
  }

  /** The index just after the last non-whitespace character of `s` before
      `j` and at or after `lo`, or `lo` when there is none. */
  function EndIndex(s: string, lo: nat, j: nat): (k: nat)
    requires lo <= j <= |s|
    ensures lo <= k <= j
    ensures forall m :: k <= m < j ==> IsWhitespace(s[m])
    ensures k > lo ==> !IsWhitespace(s[k - 1])
  {
    if j > lo && IsWhitespace(s[j - 1]) then EndIndex(s, lo, j - 1) else j
  }

  /** `s.trim()`: the slice `s[i..j]` obtained by dropping the whitespace at
      both ends. It is empty exactly when `s` is blank. */
  function Trim(s: string): (r: string)
    ensures exists i, j :: 0 <= i <= j <= |s| && r == s[i..j]
                           && (forall m :: 0 <= m < i ==> IsWhitespace(s[m]))
                           && (forall m :: j <= m < |s| ==> IsWhitespace(s[m]))
    ensures r != [] ==> !IsWhitespace(r[0]) && !IsWhitespace(r[|r| - 1])
    ensures r == [] <==> Blank(s)
  {
    var i := StartIndex(s, 0);
    var j := EndIndex(s, i, |s|);
    assert i < |s| ==> i < j;
    s[i..j]
  }

  /** `trim` is idempotent: trimming a trimmed string changes nothing. */
  lemma TrimIdempotent(s: string)
    ensures Trim(Trim(s)) == Trim(s)
  {
    var t := Trim(s);
    assert StartIndex(t, 0) == 0;
    assert EndIndex(t, 0, |t|) == |t|;
  }

  /** `s.split(" ")[0]`: the longest prefix of `s` without a space. When `s`
      has a space, the character just after the result is that first space;
      otherwise the result is all of `s`. */
  function FirstToken(s: string): (r: string)
    ensures r <= s
    ensures ' ' !in r
    ensures |r| < |s| ==> s[|r|] == ' '
  {
    if s == [] || s[0] == ' ' then [] else [s[0]] + FirstToken(s[1..])
  }
}
