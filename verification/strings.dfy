/** Python's `str.strip(chars)`: drop every leading and every trailing
    character of a given class. */
module Strings {
  import opened Ascii

  /** The two character sets the editor passes to `str.strip`: none, which
      means white space, and `'. '`. */
  datatype Chars = WhiteSpace | DotsAndSpaces

  predicate In(p: Chars, c: char) {
    match p
    case WhiteSpace => IsStripSpace(c)
    case DotsAndSpaces => IsDotOrSpace(c)
  }

  /** Every character of `s` is in `p`. */
  predicate All(s: string, p: Chars) {
    forall k :: 0 <= k < |s| ==> In(p, s[k])
  }

  /** Every character of `s` at a position in `[lo, hi)` is in `p`. */
  predicate AllIn(s: string, lo: int, hi: int, p: Chars) {
    forall k :: lo <= k < hi && 0 <= k < |s| ==> In(p, s[k])
  }

  /** The first position at or after `lo` whose character is not in `p`,
      or `|s|`: where `lstrip` starts keeping characters. */
  function LeadEnd(s: string, p: Chars, lo: nat): (r: nat)
    requires lo <= |s|
    ensures lo <= r <= |s| && AllIn(s, lo, r, p)
    ensures r < |s| ==> !In(p, s[r])
    decreases |s| - lo
  {
    if lo == |s| || !In(p, s[lo]) then lo else LeadEnd(s, p, lo + 1)
  }

  /** The last position at or before `hi` whose preceding character is not
      in `p`, or 0: where `rstrip` stops keeping characters. */
  function TrailStart(s: string, p: Chars, hi: nat): (r: nat)
    requires hi <= |s|
    ensures r <= hi && AllIn(s, r, hi, p)
    ensures 0 < r ==> !In(p, s[r - 1])
    decreases hi
  {
    if hi == 0 || !In(p, s[hi - 1]) then hi else TrailStart(s, p, hi - 1)
  }

  /** `s.strip(chars)` where `p` is the set `chars`: what lies between the
      leading and the trailing run of characters in `p`, or nothing when
      the two runs meet. */
  function Strip(s: string, p: Chars): (r: string)
    ensures |r| <= |s|
    ensures r == [] || (!In(p, r[0]) && !In(p, r[|r| - 1]))
  {
    var i := LeadEnd(s, p, 0);
    var j := TrailStart(s, p, |s|);
    if i < j then s[i..j] else []
  }

  /** Independent description of `Strip`: if the characters before `i` and
      from `j` on are in `p` and `s[i..j]` neither starts nor ends with one,
      then stripping `s` yields exactly `s[i..j]`. */
  lemma StripSlice(s: string, p: Chars, i: nat, j: nat)
    requires i <= j <= |s|
    requires AllIn(s, 0, i, p) && AllIn(s, j, |s|, p)
    requires i < j ==> !In(p, s[i]) && !In(p, s[j - 1])
    ensures Strip(s, p) == s[i..j]
  {
    var l := LeadEnd(s, p, 0);
    var t := TrailStart(s, p, |s|);
    if i < j {
      assert l == i;
      assert t == j;
    }
  }

  /** Conversely, the result of `Strip` is such a slice of its input. */
  lemma StripIndices(s: string, p: Chars) returns (i: nat, j: nat)
    ensures i <= j <= |s| && Strip(s, p) == s[i..j]
    ensures AllIn(s, 0, i, p) && AllIn(s, j, |s|, p)
    ensures i < j ==> !In(p, s[i]) && !In(p, s[j - 1])
  {
    i := LeadEnd(s, p, 0);
    j := TrailStart(s, p, |s|);
    if j <= i {
      j := i;
    }
  }

  /** Stripping twice is stripping once. */
  lemma StripIdempotent(s: string, p: Chars)
    ensures Strip(Strip(s, p), p) == Strip(s, p)
  {
    var i, j := StripIndices(s, p);
    var r := s[i..j];
    StripSlice(r, p, 0, |r|);
  }

  /** The information separators (codes 28 to 31) are not white space to
      `strip()`: "\x1c " strips to "\x1c", and likewise for the others. */
  lemma StripKeepsSeparator(c: char)
    requires 28 <= c as int <= 31
    ensures Strip([c, ' '], WhiteSpace) == [c]
  {
    StripSlice([c, ' '], WhiteSpace, 0, 1);
  }

  /** Two texts whose stripped slices agree character by character strip
      to the same text. */
  lemma StripSame(s: string, t: string, p: Chars, i: nat, j: nat, a: nat, b: nat)
    requires i <= j <= |s| && a <= b <= |t|
    requires AllIn(s, 0, i, p) && AllIn(s, j, |s|, p)
    requires i < j ==> !In(p, s[i]) && !In(p, s[j - 1])
    requires Strip(t, p) == t[a..b]
    requires j - i == b - a && forall k :: i <= k < j ==> s[k] == t[k - i + a]
    ensures Strip(s, p) == Strip(t, p)
  {
    SliceEq(s, t, i, j, a, b);
    StripSlice(s, p, i, j);
  }

  /** Slices that agree character by character are equal. */
  lemma SliceEq(s: string, t: string, i: nat, j: nat, a: nat, b: nat)
    requires i <= j <= |s| && a <= b <= |t|
    requires j - i == b - a && forall k :: i <= k < j ==> s[k] == t[k - i + a]
    ensures s[i..j] == t[a..b]
  {
    assert forall k :: 0 <= k < j - i ==> s[i..j][k] == s[i + k];
  }

  /** Padding `t` on both sides with characters in `p` keeps the
      boundaries of its stripped slice `t[a..b]` intact. */
  lemma PadBounds(x: string, t: string, y: string, p: Chars, a: nat, b: nat)
    requires All(x, p) && All(y, p)
    requires a <= b <= |t| && AllIn(t, 0, a, p) && AllIn(t, b, |t|, p)
    requires a < b ==> !In(p, t[a]) && !In(p, t[b - 1])
    ensures AllIn(x + t + y, 0, |x| + a, p) && AllIn(x + t + y, |x| + b, |x + t + y|, p)
    ensures a < b ==> !In(p, (x + t + y)[|x| + a]) && !In(p, (x + t + y)[|x| + b - 1])
    ensures forall k :: |x| + a <= k < |x| + b ==> (x + t + y)[k] == t[k - |x|]
  {
    var s := x + t + y;
    forall k | 0 <= k < |s|
      ensures s[k] == if k < |x| then x[k] else if k < |x| + |t| then t[k - |x|] else y[k - |x| - |t|]
    {
    }
  }

  /** Stripping is blind to padding made of characters in `p`. */
  lemma StripPadding(x: string, t: string, y: string, p: Chars)
    requires All(x, p) && All(y, p)
    ensures Strip(x + t + y, p) == Strip(t, p)
  {
    var a, b := StripIndices(t, p);
    PadBounds(x, t, y, p, a, b);
    StripSame(x + t + y, t, p, |x| + a, |x| + b, a, b);
  }
}
