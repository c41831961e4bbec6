/** Character-level helpers shared by the codec and the line rewriter:
    decimal digits, zero-padded formatting (`f"{n:0w}"`), Python's clamped
    slices and Python's substring search (`str.find` and `in`). */
module Text {

  predicate IsDigit(c: char) {
    '0' <= c <= '9'
  }

  predicate AllDigits(s: string) {
    forall i :: 0 <= i < |s| ==> IsDigit(s[i])
  }

  function DigitChar(d: nat): (c: char)
    requires d < 10
    ensures IsDigit(c) && c as int - '0' as int == d
  {
    ('0' as int + d) as char
  }

  function Pow10(n: nat): (r: nat)
    ensures r >= 1
  {
    if n == 0 then 1 else 10 * Pow10(n - 1)
  }

  /** The number a string of decimal digits denotes (leading zeros allowed). */
  function ValueOf(s: string): (r: nat)
    requires AllDigits(s)
    ensures r < Pow10(|s|)
  {
    if s == [] then 0
    else ValueOf(s[..|s| - 1]) * 10 + (s[|s| - 1] as int - '0' as int)
  }

  /** `n` written in exactly `width` decimal digits, zero-padded on the left,
      as Python's format specification `0<width>` does for a value that fits. */
  function Pad(n: nat, width: nat): (r: string)
    requires n < Pow10(width)
    ensures |r| == width && AllDigits(r)
    ensures ValueOf(r) == n
  {
    if width == 0 then ""
    else
      var r := Pad(n / 10, width - 1) + [DigitChar(n % 10)];
      assert r[..|r| - 1] == Pad(n / 10, width - 1);
      r
  }

  /** Padding to `width` digits writes the last digit after the padded rest. */
  lemma PadLastDigit(n: nat, width: nat)
    requires 0 < width && n < Pow10(width)
    ensures Pad(n, width) == Pad(n / 10, width - 1) + [DigitChar(n % 10)]
  {
  }

  /** Zero padding is the inverse of reading digits: a digit string is
      reproduced by padding its value to its own length. */
  lemma {:induction false} PadValueOf(s: string)
    requires AllDigits(s)
    ensures Pad(ValueOf(s), |s|) == s
  {
    if s != [] {
      var init, last := s[..|s| - 1], s[|s| - 1];
      assert AllDigits(init);
      var d := last as int - '0' as int;
      var v := ValueOf(s);
      assert v == ValueOf(init) * 10 + d;
      hide ValueOf, Pad;
      PadValueOf(init);
      PadLastDigit(v, |s|);
      assert v / 10 == ValueOf(init) && v % 10 == d;
      assert DigitChar(d) == last;
      assert s == init + [last];
    }
  }

  /** Two digit strings of the same length with the same value are equal. */
  lemma ValueOfInjective(a: string, b: string)
    requires AllDigits(a) && AllDigits(b) && |a| == |b|
    requires ValueOf(a) == ValueOf(b)
    ensures a == b
  {
    PadValueOf(a);
    PadValueOf(b);
  }

  /** A digit run stays a digit run when cut shorter. */
  lemma DigitsWithin(s: string, a: int, b: int, lo: int, hi: int)
    requires 0 <= a <= lo <= hi <= b <= |s| && AllDigits(s[a..b])
    ensures AllDigits(s[lo..hi])
  {
    forall i | 0 <= i < hi - lo
      ensures IsDigit(s[lo..hi][i])
    {
      assert s[lo..hi][i] == s[a..b][i + lo - a];
    }
  }

  function Min(a: int, b: int): int {
    if a <= b then a else b
  }

  /** Python's `s[:k]` for a non-negative `k`: clamped to the length. */
  function Take(s: string, k: nat): (r: string)
    ensures |r| == Min(k, |s|) && r == s[..|r|]
  {
    if k <= |s| then s[..k] else s
  }

  /** Python's `s[k:]` for a non-negative `k`: empty once `k` passes the end. */
  function Drop(s: string, k: nat): (r: string)
    ensures |r| == |s| - Min(k, |s|) && r == s[|s| - |r|..]
  {
    if k <= |s| then s[k..] else ""
  }

  /** Python's `s[:-1]`: everything but the last character (empty stays empty). */
  function DropLast(s: string): (r: string)
    ensures |s| > 0 ==> |r| == |s| - 1 && s == r + [s[|s| - 1]]
    ensures |s| == 0 ==> r == ""
  {
    if |s| == 0 then "" else s[..|s| - 1]
  }

  /** `pat` occurs in `s` starting at index `i`. */
  predicate OccursAt(s: string, pat: string, i: nat) {
    i + |pat| <= |s| && s[i..i + |pat|] == pat
  }

  /** Python's `pat in s`. */
  predicate Contains(s: string, pat: string): (b: bool)
    ensures pat == [] ==> b
    ensures b ==> |pat| <= |s|
  {
    assert pat == [] ==> OccursAt(s, pat, 0);
    exists i :: 0 <= i <= |s| && OccursAt(s, pat, i)
  }

  /** Python's `s.find(pat)`: the first index at which `pat` occurs, or -1. */
  function Find(s: string, pat: string): (r: int)
    ensures r == -1 || (0 <= r && OccursAt(s, pat, r))
    ensures forall j: nat :: (r == -1 || j < r) ==> !OccursAt(s, pat, j)
    ensures r >= 0 <==> Contains(s, pat)
  {
    FindFrom(s, pat, 0)
  }

  function FindFrom(s: string, pat: string, from: nat): (r: int)
    ensures r == -1 || (from <= r && OccursAt(s, pat, r))
    ensures forall j: nat :: from <= j && (r == -1 || j < r) ==> !OccursAt(s, pat, j)
    decreases |s| - from
  {
    if from + |pat| > |s| then -1
    else if s[from..from + |pat|] == pat then from
    else FindFrom(s, pat, from + 1)
  }

  /** A pattern one of whose characters never appears in `s` does not occur in it. */
  lemma AbsentWithout(s: string, pat: string, j: nat)
    requires j < |pat| && pat[j] !in s
    ensures !Contains(s, pat) && Find(s, pat) == -1
  {
    forall i | 0 <= i && i + |pat| <= |s|
      ensures !OccursAt(s, pat, i)
    {
      assert s[i..i + |pat|][j] == s[i + j];
    }
  }

  /** `find` stops at an occurrence at `k` when character `j` of the pattern
      appears nowhere before index `k + j`: no earlier occurrence fits. */
  lemma FindFirst(s: string, pat: string, k: nat, j: nat)
    requires OccursAt(s, pat, k) && j < |pat| && pat[j] !in s[..k + j]
    ensures Find(s, pat) == k
  {
    forall i | 0 <= i < k
      ensures !OccursAt(s, pat, i)
    {
      assert s[i..i + |pat|][j] == s[..k + j][i + j];
    }
  }
}
