/** The two pieces of `java.lang` the core relies on: `String.trim` and `Character.isWhitespace`,
    and the blank-string test `str == null || str.isEmpty() || str.trim().isEmpty()` the core repeats. */
module JavaText {
  import opened Wrappers

  /** `String.trim` strips every character whose code point is at most U+0020. */
  predicate Trimmable(c: char) { c <= ' ' }

  /** Index of the first non-trimmable character at or after `i` (or `|s|`). */
  function LeadingEnd(s: string, i: nat): (j: nat)
    requires i <= |s|
    ensures i <= j <= |s|
    ensures forall k :: i <= k < j ==> Trimmable(s[k])
    ensures j < |s| ==> !Trimmable(s[j])
    decreases |s| - i
  {
    if i == |s| || !Trimmable(s[i]) then i else LeadingEnd(s, i + 1)
  }

  /** Index just past the last non-trimmable character in `s[lo..j]` (or `lo`). */
  function TrailingStart(s: string, lo: nat, j: nat): (k: nat)
    requires lo <= j <= |s|
    ensures lo <= k <= j
    ensures forall x :: k <= x < j ==> Trimmable(s[x])
    ensures k > lo ==> !Trimmable(s[k - 1])
    decreases j - lo
  {
    if j == lo || !Trimmable(s[j - 1]) then j else TrailingStart(s, lo, j - 1)
  }

  /** `String.trim`. */
  function Trim(s: string): (r: string)
    ensures r == [] <==> forall k :: 0 <= k < |s| ==> Trimmable(s[k])
    ensures r != [] ==> !Trimmable(r[0]) && !Trimmable(r[|r| - 1])
    ensures |r| <= |s|
  {
    var i := LeadingEnd(s, 0);
    var j := TrailingStart(s, i, |s|);
    s[i..j]
  }

  /** The trimmed string is what is left after removing a run of trimmable characters from each
      end, starting at the returned index `i`, and trimming it again changes nothing. */
  lemma TrimRemovesOnlyTrimmableEnds(s: string) returns (i: nat)
    ensures i + |Trim(s)| <= |s| && Trim(s) == s[i..i + |Trim(s)|]
    ensures forall k :: 0 <= k < i ==> Trimmable(s[k])
    ensures forall k :: i + |Trim(s)| <= k < |s| ==> Trimmable(s[k])
    ensures Trim(Trim(s)) == Trim(s)
  {
    i := LeadingEnd(s, 0);
    var j := TrailingStart(s, i, |s|);
    var t := Trim(s);
    assert t == s[i..j];
    if t != [] {
      assert LeadingEnd(t, 0) == 0;
      assert TrailingStart(t, 0, |t|) == |t|;
    }
  }

  /** `Character.isWhitespace`: the Unicode space, line and paragraph separators other than the
      three non-breaking spaces U+00A0, U+2007 and U+202F, plus the ASCII controls U+0009-U+000D
      and U+001C-U+001F. This is the Java 9 and later table (Unicode 8.0 onwards); under Java 8
      U+180E MONGOLIAN VOWEL SEPARATOR also counts, and is not included here. */
  predicate IsWhitespace(c: char) {
    || ('\t' <= c <= '\r')
    || ('\U{001C}' <= c <= ' ')
    || c == '\U{1680}'
    || ('\U{2000}' <= c <= '\U{200A}' && c != '\U{2007}')
    || c == '\U{2028}' || c == '\U{2029}' || c == '\U{205F}' || c == '\U{3000}'
  }

  /** The core's blank test: a null, empty or all-trimmable string. */
  predicate IsBlank(s: Option<string>) {
    s.None? || s.value == [] || Trim(s.value) == []
  }
}
