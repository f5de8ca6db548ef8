/** JavaScript's `String.prototype.trim`, as the dashboard's validation guards
    use it: a field counts as filled in when its trimmed text is non-empty.
 */
module Text {

  /** The code points `trim` strips: the WhiteSpace and LineTerminator
      productions of the ECMAScript language specification (ECMA-262), with
      the Unicode "Space_Separator" (Zs) category written out. */
  predicate IsWhitespace(c: char) {
    || c == '\t' || c == '\n' || c == '\U{000B}' || c == '\U{000C}' || c == '\r'
    || c == ' ' || c == '\U{00A0}' || c == '\U{1680}'
    || ('\U{2000}' <= c <= '\U{200A}')
    || c == '\U{2028}' || c == '\U{2029}' || c == '\U{202F}' || c == '\U{205F}'
    || c == '\U{3000}' || c == '\U{FEFF}'
  }

  /** Every character of `s` is whitespace (the empty string included). */
  predicate IsBlank(s: string) {
    forall k :: 0 <= k < |s| ==> IsWhitespace(s[k])
  }

  /** The first position at or after `i` that does not hold whitespace, or
      the end of `s`. */
  function SkipLeading(s: string, i: nat): (a: nat)
    requires i <= |s|
    ensures i <= a <= |s|
    ensures forall k :: i <= k < a ==> IsWhitespace(s[k])
    ensures a == |s| || !IsWhitespace(s[a])
    decreases |s| - i
  {
    if i < |s| && IsWhitespace(s[i]) then SkipLeading(s, i + 1) else i
  }

  /** The position just past the last non-whitespace character before `j`
      and at or after `lo`, or `lo` when there is none. */
  function SkipTrailing(s: string, lo: nat, j: nat): (b: nat)
    requires lo <= j <= |s|
    ensures lo <= b <= j
    ensures forall k :: b <= k < j ==> IsWhitespace(s[k])
    ensures b == lo || !IsWhitespace(s[b - 1])
    decreases j
  {
    if j > lo && IsWhitespace(s[j - 1]) then SkipTrailing(s, lo, j - 1) else j
  }

  /** `s.trim()`: the slice of `s` between its leading and its trailing
      whitespace runs. It is empty exactly when `s` is blank, and otherwise
      starts and ends with a non-whitespace character. */
  function Trim(s: string): (r: string)
    ensures exists a, b ::
      (&& 0 <= a <= b <= |s| && r == s[a..b]
       && (forall k :: 0 <= k < a ==> IsWhitespace(s[k]))
       && (forall k :: b <= k < |s| ==> IsWhitespace(s[k])))
    ensures r == [] <==> IsBlank(s)
    ensures r == [] || (!IsWhitespace(r[0]) && !IsWhitespace(r[|r| - 1]))
  {
    var a := SkipLeading(s, 0);
    var b := SkipTrailing(s, a, |s|);
    assert b > a ==> s[a..b][0] == s[a] && s[a..b][b - a - 1] == s[b - 1];
    s[a..b]
  }
}
