/** `String.prototype.trim` of ECMAScript (ECMA-262): strip every leading and
    trailing code point of the WhiteSpace and LineTerminator productions. */
module Text {

  /** The fixed whitespace set `trim` removes: TAB, VT, FF, SPACE, NBSP,
      ZWNBSP, the Space_Separator code points, LF, CR, LS and PS. */
  predicate IsWhitespace(c: char) {
    || c == '\t' || c == '\U{000B}' || c == '\U{000C}' || c == ' '
    || c == '\U{00A0}' || c == '\U{FEFF}'
    || c == '\U{1680}' || ('\U{2000}' <= c <= '\U{200A}')
    || c == '\U{202F}' || c == '\U{205F}' || c == '\U{3000}'
    || c == '\n' || c == '\r' || c == '\U{2028}' || c == '\U{2029}'
  }

  /** Every character of `s` is whitespace (so the empty string qualifies). */
  ghost predicate AllWhitespace(s: string) {
    forall k :: 0 <= k < |s| ==> IsWhitespace(s[k])
  }

  /** `s` holds at least one character that `trim` keeps. */
  ghost predicate HasNonWhitespace(s: string) {
    exists k :: 0 <= k < |s| && !IsWhitespace(s[k])
  }

  /** The index of the first non-whitespace character at or after `i`, or
      `|s|` if there is none: everything skipped over is whitespace. */
  function SkipLeading(s: string, i: nat): (k: nat)
    requires i <= |s|
    ensures i <= k <= |s|
    ensures forall j :: i <= j < k ==> IsWhitespace(s[j])
    ensures k == |s| || !IsWhitespace(s[k])
    decreases |s| - i
  {
    if i < |s| && IsWhitespace(s[i]) then SkipLeading(s, i + 1) else i
  }

  /** Scanning back from `j` but not past `lo`: the end of the last
      non-whitespace character, or `lo`. Everything skipped is whitespace. */
  function SkipTrailing(s: string, lo: nat, j: nat): (e: nat)
    requires lo <= j <= |s|
    ensures lo <= e <= j
    ensures forall m :: e <= m < j ==> IsWhitespace(s[m])
    ensures e == lo || !IsWhitespace(s[e - 1])
    decreases j
  {
    if lo < j && IsWhitespace(s[j - 1]) then SkipTrailing(s, lo, j - 1) else j
  }

  /** `s.trim()`: the contiguous slice of `s` that starts after its leading
      whitespace and ends at its last kept character. Every character of `s`
      outside the slice is whitespace, and the slice is empty or starts and
      ends with a kept character, which makes it unique. */
  function Trim(s: string): (r: string)
    ensures var i := SkipLeading(s, 0);
            && i + |r| <= |s| && r == s[i..i + |r|]
            && forall k :: 0 <= k < |s| && !(i <= k < i + |r|) ==> IsWhitespace(s[k])
    ensures r == [] || (!IsWhitespace(r[0]) && !IsWhitespace(r[|r| - 1]))
  {
    var i := SkipLeading(s, 0);
    s[i..SkipTrailing(s, i, |s|)]
  }

  /** `trim` yields the empty string exactly when there is nothing but
      whitespace; a single kept character anywhere makes it non-empty. */
  lemma TrimEmptyIff(s: string)
    ensures Trim(s) == [] <==> !HasNonWhitespace(s)
  {
    if Trim(s) != [] {
      assert s[SkipLeading(s, 0)] == Trim(s)[0];
    }
  }

  /** `trim` is idempotent: a trimmed string has nothing left to strip. */
  lemma TrimIdempotent(s: string)
    ensures Trim(Trim(s)) == Trim(s)
  {
    var r := Trim(s);
    if r != [] {
      assert SkipLeading(r, 0) == 0;
      assert SkipTrailing(r, 0, |r|) == |r|;
    }
  }
}
