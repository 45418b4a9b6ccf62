/** The behaviour of Python's `str` that the answer glue relies on: the
    whitespace class of `strip()`, first-occurrence `find`, slicing with
    non-negative bounds, the last piece of `split`, `'\n'.join` and `str(n)`
    for a natural number.  Strings are sequences of Unicode scalar values.
    A Python `str` may also hold lone surrogate code points, which no Dafny
    `char` can; such strings are outside this model. */
module PyText {

  /** A character that `str.isspace()` accepts, and so `strip()` removes. */
  predicate IsSpace(c: char) {
    || ('\t' <= c <= '\r')
    || ('\U{1C}' <= c <= '\U{1F}')
    || c == ' '
    || c == '\U{85}'
    || c == '\U{A0}'
    || c == '\U{1680}'
    || ('\U{2000}' <= c <= '\U{200A}')
    || c == '\U{2028}'
    || c == '\U{2029}'
    || c == '\U{202F}'
    || c == '\U{205F}'
    || c == '\U{3000}'
  }

  /** Whitespace only: `not s.strip()`, the test `translate_text` uses to
      skip blank text (`BlankIff` shows the two agree). */
  predicate AllSpace(s: string) {
    forall i :: 0 <= i < |s| ==> IsSpace(s[i])
  }

  /** No whitespace at either end. */
  predicate Trimmed(s: string) {
    s == [] || (!IsSpace(s[0]) && !IsSpace(s[|s| - 1]))
  }

  /** `s` is `r`, starting at index `i`, with only whitespace before and after it. */
  predicate SpaceAround(s: string, i: int, r: string) {
    && 0 <= i && i + |r| <= |s|
    && s[i..i + |r|] == r
    && (forall k :: 0 <= k < i ==> IsSpace(s[k]))
    && (forall k :: i + |r| <= k < |s| ==> IsSpace(s[k]))
  }

  /** The first index from `i` on that does not hold whitespace, or `|s|`:
      where the text of `s.lstrip()` starts. */
  function SkipSpace(s: string, i: nat): (j: nat)
    requires i <= |s|
    ensures i <= j <= |s|
    ensures forall k :: i <= k < j ==> IsSpace(s[k])
    ensures j < |s| ==> !IsSpace(s[j])
    decreases |s| - i
  {
    if i < |s| && IsSpace(s[i]) then SkipSpace(s, i + 1) else i
  }

  /** Where the text of `s[i..j]` ends once its trailing whitespace is gone:
      where `rstrip()` cuts. */
  function TextEnd(s: string, i: nat, j: nat): (e: nat)
    requires i <= j <= |s|
    ensures i <= e <= j
    ensures forall k :: e <= k < j ==> IsSpace(s[k])
    ensures e > i ==> !IsSpace(s[e - 1])
    decreases j
  {
    if j > i && IsSpace(s[j - 1]) then TextEnd(s, i, j - 1) else j
  }

  /** `s.strip()`: what is left of `s` once the whitespace at both ends is gone. */
  function Strip(s: string): (r: string)
    ensures Trimmed(r)
    ensures |r| <= |s|
  {
    var i := SkipSpace(s, 0);
    s[i..TextEnd(s, i, |s|)]
  }

  /** The stretch `Strip(s)` starts at the first character that is not
      whitespace. */
  lemma StripAt(s: string)
    ensures SpaceAround(s, SkipSpace(s, 0), Strip(s))
  {
    var i := SkipSpace(s, 0);
    var e := TextEnd(s, i, |s|);
    assert Strip(s) == s[i..e];
  }

  /** Any way of writing `s` as trimmed text with only whitespace around it
      gives `Strip(s)`: the characterization determines the result. */
  lemma StripUnique(s: string, i: int, r: string)
    requires Trimmed(r) && SpaceAround(s, i, r)
    ensures Strip(s) == r
  {
    var i0 := SkipSpace(s, 0);
    var e0 := TextEnd(s, i0, |s|);
    if r == [] {
      assert forall k :: 0 <= k < |s| ==> IsSpace(s[k]);
      assert i0 == |s|;
    } else {
      // The first non-space character of `s` opens both, the last one closes both.
      assert s[i] == r[0] && s[i + |r| - 1] == r[|r| - 1];
      assert i0 == i;
      assert e0 == i + |r|;
    }
  }

  lemma StripIdempotent(s: string)
    ensures Strip(Strip(s)) == Strip(s)
  {
    var r := Strip(s);
    assert SpaceAround(r, 0, r);
    StripUnique(r, 0, r);
  }

  /** `strip()` leaves nothing exactly when the text is whitespace only. */
  lemma BlankIff(s: string)
    ensures Strip(s) == "" <==> AllSpace(s)
  {
    StripAt(s);
    if AllSpace(s) {
      assert SpaceAround(s, 0, []);
      StripUnique(s, 0, []);
    }
  }

  // ---------------------------------------------------------------- find

  /** `m` occurs in `s` at index `i`. */
  predicate OccursAt(s: string, m: string, i: int) {
    0 <= i && i + |m| <= |s| && s[i..i + |m|] == m
  }

  /** Python's `m in s`. */
  predicate Contains(s: string, m: string) {
    exists i :: 0 <= i <= |s| && OccursAt(s, m, i)
  }

  /** `i` is the first index at which `m` occurs in `s`. */
  predicate IsFirst(s: string, m: string, i: int) {
    OccursAt(s, m, i) && forall k :: 0 <= k < i ==> !OccursAt(s, m, k)
  }

  /** `i` is the last index at which `m` occurs in `s`. */
  predicate IsLast(s: string, m: string, i: int) {
    OccursAt(s, m, i) && forall k :: i < k <= |s| ==> !OccursAt(s, m, k)
  }

  lemma FirstUnique(s: string, m: string, i: int, j: int)
    requires IsFirst(s, m, i) && IsFirst(s, m, j)
    ensures i == j
  {
  }

  lemma LastUnique(s: string, m: string, i: int, j: int)
    requires IsLast(s, m, i) && IsLast(s, m, j)
    ensures i == j
  {
  }

  /** The first occurrence is the one `find` reports. */
  lemma FindAt(s: string, m: string, i: int)
    requires IsFirst(s, m, i)
    ensures Find(s, m) == i
  {
    assert Contains(s, m);
    FirstUnique(s, m, i, Find(s, m));
  }

  /** `s.find(m, i)` for `0 <= i <= |s|`. */
  function FindFrom(s: string, m: string, i: nat): (r: int)
    requires i <= |s|
    ensures r == -1 || (i <= r && OccursAt(s, m, r))
    ensures forall k :: i <= k && (r == -1 || k < r) ==> !OccursAt(s, m, k)
    decreases |s| - i
  {
    if OccursAt(s, m, i) then i
    else if i == |s| then -1
    else FindFrom(s, m, i + 1)
  }

  /** `s.find(m)`: the first index at which `m` occurs, or -1 when it does not. */
  function Find(s: string, m: string): (r: int)
    ensures r == -1 <==> !Contains(s, m)
    ensures r != -1 ==> IsFirst(s, m, r)
  {
    FindFrom(s, m, 0)
  }

  /** An occurrence in a suffix of `s` is an occurrence in `s`, shifted. */
  lemma OccursInSuffix(s: string, m: string, off: nat, k: int)
    requires off <= |s|
    ensures OccursAt(s[off..], m, k) <==> k >= 0 && OccursAt(s, m, off + k)
  {
    if 0 <= k && k + |m| <= |s| - off {
      assert s[off..][k..k + |m|] == s[off + k..off + k + |m|];
    }
  }

  // ------------------------------------------------------------- slicing

  /** `s[i:j]` for non-negative bounds: bounds past the end are clamped, and
      a slice whose start is not before its end is empty. */
  function Slice(s: string, i: nat, j: nat): (r: string)
    ensures i < j <= |s| ==> r == s[i..j]
    ensures j <= i ==> r == ""
  {
    var lo := if i < |s| then i else |s|;
    var hi := if j < |s| then j else |s|;
    if lo < hi then s[lo..hi] else ""
  }

  // --------------------------------------------------------------- split

  /** `m` never overlaps itself: no proper suffix of `m` is also a prefix of
      it, so two occurrences of `m` in one string never share a character. */
  predicate NoSelfOverlap(m: string) {
    forall d :: 0 < d < |m| ==> !IsBorder(m, d)
  }

  /** The last `|m| - d` characters of `m` are also its first ones. */
  predicate IsBorder(m: string, d: int)
    requires 0 < d < |m|
  {
    m[d..] == m[..|m| - d]
  }

  /** Two occurrences of `m` less than its length apart make the overlapping
      part both a suffix and a prefix of `m`. */
  lemma SharedPart(s: string, m: string, j: int, k: int)
    requires OccursAt(s, m, j) && OccursAt(s, m, k) && j < k < j + |m|
    ensures IsBorder(m, k - j)
  {
    var d := k - j;
    assert m[d..] == s[j..j + |m|][d..] == s[k..j + |m|];
    assert m[..|m| - d] == s[k..k + |m|][..|m| - d] == s[k..j + |m|];
  }

  /** Two occurrences of a marker that does not overlap itself are at least
      its length apart. */
  lemma OccurrencesApart(s: string, m: string, j: int, k: int)
    requires NoSelfOverlap(m) && OccursAt(s, m, j) && j < k < j + |m|
    ensures !OccursAt(s, m, k)
  {
    if OccursAt(s, m, k) {
      SharedPart(s, m, j, k);
    }
  }

  /** No occurrence of `m` in `s` starts at `j` or later. */
  predicate NoneFrom(s: string, m: string, j: int) {
    forall k :: j <= k <= |s| ==> !OccursAt(s, m, k)
  }

  /** Text free of `m` after index `c` has no occurrence from `c` on. */
  lemma AbsentAfter(s: string, m: string, c: nat)
    requires c <= |s| && !Contains(s[c..], m)
    ensures NoneFrom(s, m, c)
  {
    forall k | c <= k <= |s|
      ensures !OccursAt(s, m, k)
    {
      OccursInSuffix(s, m, c, k - c);
    }
  }

  /** Where the last piece of `s.split(m)` starts, once the scan has reached
      index `i`: Python cuts at each occurrence it meets, left to right, and
      resumes after it; the last piece starts after the final cut, or at `i`
      when no occurrence is left. */
  function CutFrom(s: string, m: string, i: nat): (j: nat)
    requires m != [] && i <= |s|
    ensures i <= j <= |s|
    ensures NoneFrom(s, m, j)
    ensures j == i <==> NoneFrom(s, m, i)
    ensures j > i ==> j >= |m| && OccursAt(s, m, j - |m|)
    decreases |s| - i
  {
    var f := FindFrom(s, m, i);
    if f == -1 then i else CutFrom(s, m, f + |m|)
  }

  /** Where the last piece of `s.split(m)` starts.  Python refuses an empty
      separator. */
  function LastCut(s: string, m: string): (j: int)
    requires m != []
    ensures 0 <= j <= |s|
    ensures NoneFrom(s, m, j)
    ensures j == 0 <==> !Contains(s, m)
    ensures j > 0 ==> j >= |m| && OccursAt(s, m, j - |m|)
  {
    CutFrom(s, m, 0)
  }

  /** `s.split(m)[-1]`. */
  function SplitLast(s: string, m: string): (r: string)
    requires m != []
    ensures !Contains(s, m) ==> r == s
  {
    var j := LastCut(s, m);
    assert j == 0 ==> s[j..] == s;
    s[j..]
  }

  /** For a marker that does not overlap itself, the last piece of `split`
      is exactly the text after the marker's last occurrence. */
  lemma SplitLastAfterLast(s: string, m: string)
    requires m != [] && NoSelfOverlap(m) && Contains(s, m)
    ensures IsLast(s, m, LastCut(s, m) - |m|)
  {
    OnlyOccurrenceBefore(s, m, LastCut(s, m));
  }

  /** An occurrence of a marker that does not overlap itself, with no
      occurrence starting after it ends, is the marker's last occurrence. */
  lemma OnlyOccurrenceBefore(s: string, m: string, c: int)
    requires NoSelfOverlap(m) && |m| <= c <= |s| && OccursAt(s, m, c - |m|) && NoneFrom(s, m, c)
    ensures IsLast(s, m, c - |m|)
  {
    var j := c - |m|;
    forall k | j < k < c
      ensures !OccursAt(s, m, k)
    {
      OccurrencesApart(s, m, j, k);
    }
  }

  // ---------------------------------------------------------------- join

  /** `'\n'.join(xs)`. */
  function JoinLines(xs: seq<string>): (r: string)
    ensures r == "" <==> |xs| == 0 || (|xs| == 1 && xs[0] == "")
  {
    if |xs| == 0 then ""
    else if |xs| == 1 then xs[0]
    else xs[0] + "\n" + JoinLines(xs[1..])
  }

  /** `s.split("\n")`: the lines of `s`, an empty one wherever two line
      breaks meet or one ends the text. */
  function SplitLines(s: string): (r: seq<string>)
    ensures |r| >= 1
  {
    if s == [] then [""]
    else
      var rest := SplitLines(s[1..]);
      if s[0] == '\n' then [""] + rest else [[s[0]] + rest[0]] + rest[1..]
  }

  /** Text with no line break is a single line. */
  lemma {:induction false} SplitOneLine(a: string)
    requires '\n' !in a
    ensures SplitLines(a) == [a]
  {
    if a != [] {
      assert '\n' !in a[1..];
      SplitOneLine(a[1..]);
      assert [a[0]] + a[1..] == a;
    }
  }

  /** A line break after a line-free `a` splits `a` off as the first line. */
  lemma {:induction false} SplitAfterLine(a: string, rest: string)
    requires '\n' !in a
    ensures SplitLines(a + "\n" + rest) == [a] + SplitLines(rest)
  {
    if a == [] {
      assert a + "\n" + rest == "\n" + rest;
      assert ("\n" + rest)[1..] == rest;
    } else {
      var s := a + "\n" + rest;
      assert s[0] == a[0];
      assert s[1..] == a[1..] + "\n" + rest;
      assert '\n' !in a[1..];
      SplitAfterLine(a[1..], rest);
      assert [a[0]] + a[1..] == a;
    }
  }

  /** Splitting joined lines gives the lines back, as long as none of them
      holds a line break itself. */
  lemma {:induction false} SplitJoinLines(xs: seq<string>)
    requires |xs| >= 1
    requires forall i :: 0 <= i < |xs| ==> '\n' !in xs[i]
    ensures SplitLines(JoinLines(xs)) == xs
  {
    if |xs| == 1 {
      SplitOneLine(xs[0]);
    } else {
      SplitAfterLine(xs[0], JoinLines(xs[1..]));
      assert forall i :: 0 <= i < |xs[1..]| ==> '\n' !in xs[1..][i];
      SplitJoinLines(xs[1..]);
      assert xs == [xs[0]] + xs[1..];
    }
  }

  // -------------------------------------------------------------- str(n)

  function DigitChar(d: int): (c: char)
    requires 0 <= d < 10
    ensures '0' <= c <= '9' && c as int - '0' as int == d
  {
    (('0' as int) + d) as char
  }

  /** `str(n)` for a natural number: its decimal digits, most significant first. */
  function Decimal(n: nat): (r: string)
    ensures |r| >= 1
    ensures forall i :: 0 <= i < |r| ==> '0' <= r[i] <= '9'
    ensures r[0] == '0' ==> n == 0
  {
    if n < 10 then [DigitChar(n)] else Decimal(n / 10) + [DigitChar(n % 10)]
  }

  /** The value of a string of decimal digits, most significant first. */
  function DecimalValue(s: string): int {
    if s == [] then 0 else DecimalValue(s[..|s| - 1]) * 10 + (s[|s| - 1] as int - '0' as int)
  }

  lemma {:induction false} DecimalRoundTrip(n: nat)
    ensures DecimalValue(Decimal(n)) == n
  {
    if n >= 10 {
      var s := Decimal(n / 10) + [DigitChar(n % 10)];
      assert s[..|s| - 1] == Decimal(n / 10);
      DecimalRoundTrip(n / 10);
    }
  }

  /** Different numbers are written differently. */
  lemma DecimalInjective(a: nat, b: nat)
    requires Decimal(a) == Decimal(b)
    ensures a == b
  {
    DecimalRoundTrip(a);
    DecimalRoundTrip(b);
  }

  function Pow10(k: nat): nat {
    if k == 0 then 1 else 10 * Pow10(k - 1)
  }

  /** A number with `k + 1` digits is written with `k + 1` characters. */
  lemma {:induction false} DecimalLength(n: nat, k: nat)
    requires Pow10(k) <= n < 10 * Pow10(k)
    ensures |Decimal(n)| == k + 1
  {
    if k > 0 {
      DecimalLength(n / 10, k - 1);
    }
  }
}
