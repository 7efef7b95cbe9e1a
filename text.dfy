/**
  Python's `str.strip()` with no argument: remove leading and trailing characters for which
  `str.isspace()` holds.  The status line of a failed conversion shows the converter's
  standard-error text passed through this function.
 */
module Text {

  /** The characters Python's `str.isspace()` accepts. */
  predicate IsSpace(c: char) {
    || ('\t' <= c <= '\r')                      // tab, line feed, vertical tab, form feed, return
    || ('\U{1C}' <= c <= '\U{1F}')              // file, group, record and unit separators
    || c == ' ' || c == '\U{85}' || c == '\U{A0}' || c == '\U{1680}'
    || ('\U{2000}' <= c <= '\U{200A}')
    || c == '\U{2028}' || c == '\U{2029}' || c == '\U{202F}' || c == '\U{205F}' || c == '\U{3000}'
  }

  /** The first index at or after `i` whose character is not whitespace, or `|s|`. */
  function SkipSpaces(s: string, i: nat): (j: nat)
    requires i <= |s|
    ensures i <= j <= |s|
    ensures forall k | i <= k < j :: IsSpace(s[k])
    ensures j < |s| ==> !IsSpace(s[j])
    decreases |s| - i
  {
    if i < |s| && IsSpace(s[i]) then SkipSpaces(s, i + 1) else i
  }

  /** The end of `s[lo..hi]` once its trailing whitespace is dropped. */
  function TrimEnd(s: string, lo: nat, hi: nat): (e: nat)
    requires lo <= hi <= |s|
    ensures lo <= e <= hi
    ensures forall k | e <= k < hi :: IsSpace(s[k])
    ensures e > lo ==> !IsSpace(s[e - 1])
    decreases hi
  {
    if hi > lo && IsSpace(s[hi - 1]) then TrimEnd(s, lo, hi - 1) else hi
  }

  /**
    `s.strip()`: `s` with leading and trailing whitespace cut off.  The result is the slice of
    `s` that starts after the leading whitespace and has only whitespace after it; it is empty exactly when `s` is all whitespace,
    and otherwise starts and ends with a non-space.
   */
  function Strip(s: string): (r: string)
    ensures var lo := SkipSpaces(s, 0);
      && lo + |r| <= |s| && s[lo..lo + |r|] == r
      && forall k | lo + |r| <= k < |s| :: IsSpace(s[k])
    ensures r == [] <==> forall k | 0 <= k < |s| :: IsSpace(s[k])
    ensures r != [] ==> !IsSpace(r[0]) && !IsSpace(r[|r| - 1])
  {
    var lo := SkipSpaces(s, 0);
    var hi := TrimEnd(s, lo, |s|);
    assert lo == |s| ==> hi == lo;
    assert hi == lo ==> forall k | 0 <= k < |s| :: IsSpace(s[k]);
    s[lo..hi]
  }

  /** Stripping twice is stripping once. */
  lemma StripIdempotent(s: string)
    ensures Strip(Strip(s)) == Strip(s)
  {
    var r := Strip(s);
    if r != [] {
      assert SkipSpaces(r, 0) == 0;
      assert TrimEnd(r, 0, |r|) == |r|;
    }
  }
}
