/** JavaScript's String.prototype.trim, as addName applies it to the text box
    contents: it strips white space and line terminators from both ends. */
module Text {

  /** The characters ECMAScript counts as WhiteSpace or LineTerminator. */
  predicate IsSpace(c: char) {
    var n := c as int;
    n == 0x09 || n == 0x0A || n == 0x0B || n == 0x0C || n == 0x0D || n == 0x20
    || n == 0xA0 || n == 0x1680 || (0x2000 <= n <= 0x200A) || n == 0x2028
    || n == 0x2029 || n == 0x202F || n == 0x205F || n == 0x3000 || n == 0xFEFF
  }

  /** Every character of `s` at a position in [lo, hi) is white space. */
  predicate SpaceIn(s: string, lo: int, hi: int)
    requires 0 <= lo <= hi <= |s|
  {
    forall i :: lo <= i < hi ==> IsSpace(s[i])
  }

  predicate AllSpace(s: string) {
    SpaceIn(s, 0, |s|)
  }

  /** Scans right from `i` past white space: the result is the first
      position at or after `i` that holds a non-space character, or |s|. */
  function SkipLeading(s: string, i: nat): (k: nat)
    requires i <= |s|
    ensures i <= k <= |s| && SpaceIn(s, i, k)
    ensures k < |s| ==> !IsSpace(s[k])
    decreases |s| - i
  {
    if i < |s| && IsSpace(s[i]) then SkipLeading(s, i + 1) else i
  }

  /** Scans left from `j` past white space, stopping at `lo`: the result is
      the end of the last non-space character in s[lo..j], or `lo`. */
  function SkipTrailing(s: string, lo: nat, j: nat): (k: nat)
    requires lo <= j <= |s|
    ensures lo <= k <= j && SpaceIn(s, k, j)
    ensures lo < k ==> !IsSpace(s[k - 1])
    decreases j
  {
    if lo < j && IsSpace(s[j - 1]) then SkipTrailing(s, lo, j - 1) else j
  }

  /** `r` is the slice of `s` starting at `a`, with only white space before
      and after it. */
  predicate TrimmedAt(s: string, a: int, r: string) {
    && 0 <= a <= |s| - |r| && r == s[a..a + |r|]
    && SpaceIn(s, 0, a) && SpaceIn(s, a + |r|, |s|)
  }

  /** `s.trim()`: the slice of `s` left after dropping the white space on
      both ends; it starts and ends with a non-space character. */
  function Trim(s: string): (r: string)
    ensures exists a :: TrimmedAt(s, a, r)
    ensures r != [] ==> !IsSpace(r[0]) && !IsSpace(r[|r| - 1])
  {
    var a := SkipLeading(s, 0);
    var b := SkipTrailing(s, a, |s|);
    assert TrimmedAt(s, a, s[a..b]);
    s[a..b]
  }

  /** `s.trim()` is falsy (the empty string) exactly when `s` is all white
      space, which is the case addName ignores. */
  lemma TrimEmptyIff(s: string)
    ensures Trim(s) == [] <==> AllSpace(s)
  {
  }

  /** Trimming a trimmed string changes nothing. */
  lemma TrimIdempotent(s: string)
    ensures Trim(Trim(s)) == Trim(s)
  {
  }
}
