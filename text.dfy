/** The parts of Python's `str` and `int` behaviour that the batch script relies on:
    ASCII digits and decimal numbers, `str.replace`, `str.split`, `str.join`,
    `str.strip` and `str.endswith`. */
module Text {

  // ---------------------------------------------------------------- digits and numbers

  /** The regex class `\d`, restricted to ASCII digits. */
  predicate IsDigit(c: char) {
    '0' <= c <= '9'
  }

  predicate AllDigits(s: string) {
    forall i :: 0 <= i < |s| ==> IsDigit(s[i])
  }

  /** Every character of `s` from position `i` up to (not including) `j` is a digit. */
  predicate DigitsIn(s: string, i: nat, j: nat) {
    j <= |s| && forall k :: i <= k < j ==> IsDigit(s[k])
  }

  lemma DigitsInSlice(s: string, i: nat, j: nat)
    requires i <= j <= |s|
    ensures DigitsIn(s, i, j) <==> AllDigits(s[i..j])
  {
    assert forall k :: i <= k < j ==> s[i..j][k - i] == s[k];
  }

  /** Length of the longest run of digits in `s` starting at position `i`: what a greedy `\d+` consumes. */
  function DigitRun(s: string, i: nat): (n: nat)
    requires i <= |s|
    ensures DigitsIn(s, i, i + n)
    ensures i + n == |s| || !IsDigit(s[i + n])
    decreases |s| - i
  {
    if i < |s| && IsDigit(s[i]) then 1 + DigitRun(s, i + 1) else 0
  }

  function DigitValue(c: char): nat
    requires IsDigit(c)
  {
    c as int - '0' as int
  }

  function DigitChar(d: nat): (c: char)
    requires d < 10
    ensures IsDigit(c) && DigitValue(c) == d
  {
    ('0' as int + d) as char
  }

  /** Python's `int(s)` for a string of ASCII digits (leading zeros allowed). */
  function DecimalValue(s: string): nat
    requires AllDigits(s)
    decreases |s|
  {
    if s == [] then 0 else 10 * DecimalValue(s[..|s| - 1]) + DigitValue(s[|s| - 1])
  }

  /** Python's `str(n)` for a natural number: no leading zero, `0` alone for zero. */
  function NatToString(n: nat): (s: string)
    ensures |s| >= 1 && AllDigits(s)
    ensures s[0] == '0' <==> n == 0
    decreases n
  {
    if n < 10 then [DigitChar(n)] else NatToString(n / 10) + [DigitChar(n % 10)]
  }

  /** `int(str(n)) == n`. */
  lemma {:induction false} NatToStringRoundTrip(n: nat)
    ensures DecimalValue(NatToString(n)) == n
    decreases n
  {
    if n >= 10 {
      var s := NatToString(n);
      assert s[..|s| - 1] == NatToString(n / 10);
      NatToStringRoundTrip(n / 10);
    }
  }

  /** A run of `n` digits from `i` that is followed by a non-digit (or the end) is exactly
      what a greedy `\d+` consumes there. */
  lemma {:induction false} DigitRunIs(s: string, i: nat, n: nat)
    requires DigitsIn(s, i, i + n)
    requires i + n == |s| || !IsDigit(s[i + n])
    ensures DigitRun(s, i) == n
    decreases n
  {
    if n > 0 {
      DigitRunIs(s, i + 1, n - 1);
    }
  }

  /** A greedy `\d+` at `i` takes at least every digit of a run of `n` digits there. */
  lemma {:induction false} DigitRunAtLeast(s: string, i: nat, n: nat)
    requires DigitsIn(s, i, i + n)
    ensures DigitRun(s, i) >= n
    decreases n
  {
    if n > 0 {
      DigitRunAtLeast(s, i + 1, n - 1);
    }
  }

  /** A greedy `\d+` at `i` stops before any non-digit at or after `i`. */
  lemma DigitRunAtMost(s: string, i: nat, j: nat)
    requires i <= j < |s| && !IsDigit(s[j])
    ensures DigitRun(s, i) <= j - i
  {
  }

  /** A decimal rendering with a non-digit after it: `\d+` stops exactly at its end. */
  lemma DigitRunOfNumber(n: nat, rest: string)
    requires rest != [] && !IsDigit(rest[0])
    ensures DigitRun(NatToString(n) + rest, 0) == |NatToString(n)|
    ensures (NatToString(n) + rest)[..|NatToString(n)|] == NatToString(n)
  {
    var d, s := NatToString(n), NatToString(n) + rest;
    assert s[0..|d|] == d;
    DigitsInSlice(s, 0, |d|);
    DigitRunIs(s, 0, |d|);
  }

  // ---------------------------------------------------------------- endswith, replace

  /** Python's `s.endswith(suffix)`. */
  predicate EndsWith(s: string, suffix: string) {
    |suffix| <= |s| && s[|s| - |suffix|..] == suffix
  }

  /** Python's `s.replace(pat, rep)` for a non-empty `pat`: every non-overlapping occurrence,
      scanning from the left, is replaced. */
  function Replace(s: string, pat: string, rep: string): string
    requires |pat| > 0
    decreases |s|
  {
    if |s| < |pat| then s
    else if s[..|pat|] == pat then rep + Replace(s[|pat|..], pat, rep)
    else [s[0]] + Replace(s[1..], pat, rep)
  }

  /** Replacing a pattern whose first character never occurs changes nothing. */
  lemma {:induction false} ReplaceAbsent(s: string, pat: string, rep: string)
    requires |pat| > 0 && pat[0] !in s
    ensures Replace(s, pat, rep) == s
    decreases |s|
  {
    if |s| >= |pat| {
      assert s[..|pat|][0] == s[0];
      assert s[0] in s;
      ReplaceAbsent(s[1..], pat, rep);
    }
  }

  /** `s` with every space turned into an underscore, position by position. */
  function Underscored(s: string): (r: string)
    ensures |r| == |s|
  {
    seq(|s|, i requires 0 <= i < |s| => if s[i] == ' ' then '_' else s[i])
  }

  /** `s` with every occurrence of `c` dropped, the other characters kept in order. */
  function Without(s: string, c: char): string
    decreases |s|
  {
    if s == [] then [] else (if s[0] == c then [] else [s[0]]) + Without(s[1..], c)
  }

  lemma {:induction false} WithoutSpec(s: string, c: char)
    ensures c !in Without(s, c)
    ensures |Without(s, c)| <= |s|
    ensures forall x :: x in Without(s, c) ==> x in s
    decreases |s|
  {
    if s != [] {
      WithoutSpec(s[1..], c);
    }
  }

  /** `s.replace(' ', '_')` is the position-wise substitution. */
  lemma {:induction false} ReplaceSpaces(s: string)
    ensures Replace(s, " ", "_") == Underscored(s)
    decreases |s|
  {
    if s != [] {
      ReplaceSpaces(s[1..]);
      assert Underscored(s) == [Underscored(s)[0]] + Underscored(s[1..]);
    }
  }

  /** `s.replace(',', '')` drops the commas and keeps the rest in order. */
  lemma {:induction false} ReplaceCommas(s: string)
    ensures Replace(s, ",", "") == Without(s, ',')
    decreases |s|
  {
    if s != [] {
      ReplaceCommas(s[1..]);
    }
  }

  // ---------------------------------------------------------------- split and join

  /** Python's `s.split(sep)` for a one-character separator: empty fields are kept,
      and the empty string splits into one empty field. */
  function Split(s: string, sep: char): (parts: seq<string>)
    ensures |parts| >= 1
    ensures forall i :: 0 <= i < |parts| ==> sep !in parts[i]
    decreases |s|
  {
    if s == [] then [""]
    else
      var rest := Split(s[1..], sep);
      if s[0] == sep then [""] + rest else [[s[0]] + rest[0]] + rest[1..]
  }

  /** Python's `sep.join(xs)`. */
  function JoinWith(xs: seq<string>, sep: string): string
    decreases |xs|
  {
    if xs == [] then "" else if |xs| == 1 then xs[0] else xs[0] + sep + JoinWith(xs[1..], sep)
  }

  lemma {:induction false} SplitWithoutSeparator(a: string, sep: char)
    requires sep !in a
    ensures Split(a, sep) == [a]
    decreases |a|
  {
    if a != [] {
      SplitWithoutSeparator(a[1..], sep);
      assert [a[0]] + a[1..] == a;
    }
  }

  lemma {:induction false} SplitAtFirstSeparator(a: string, b: string, sep: char)
    requires sep !in a
    ensures Split(a + [sep] + b, sep) == [a] + Split(b, sep)
    decreases |a|
  {
    var s := a + [sep] + b;
    if a == [] {
      assert s[1..] == b;
    } else {
      assert s[1..] == a[1..] + [sep] + b;
      SplitAtFirstSeparator(a[1..], b, sep);
      assert [a[0]] + a[1..] == a;
    }
  }

  /** Splitting a join on a separator that no part contains gives the parts back. */
  lemma {:induction false} SplitJoin(xs: seq<string>, sep: char)
    requires |xs| >= 1
    requires forall i :: 0 <= i < |xs| ==> sep !in xs[i]
    ensures Split(JoinWith(xs, [sep]), sep) == xs
    decreases |xs|
  {
    if |xs| == 1 {
      SplitWithoutSeparator(xs[0], sep);
    } else {
      SplitJoin(xs[1..], sep);
      SplitAtFirstSeparator(xs[0], JoinWith(xs[1..], [sep]), sep);
      assert [xs[0]] + xs[1..] == xs;
    }
  }

  // ---------------------------------------------------------------- strip

  /** Python's `str.isspace()` for one character: ASCII tab to carriage return, the four
      information separators, space, and the Unicode space characters Python counts. */
  predicate IsSpace(c: char) {
    || '\t' <= c <= '\r'
    || '\U{1C}' <= c <= ' '
    || c == '\U{85}' || c == '\U{A0}' || c == '\U{1680}'
    || '\U{2000}' <= c <= '\U{200A}'
    || c == '\U{2028}' || c == '\U{2029}' || c == '\U{202F}' || c == '\U{205F}' || c == '\U{3000}'
  }

  /** Neither end of `s` is whitespace. */
  predicate IsStripped(s: string) {
    s == [] || (!IsSpace(s[0]) && !IsSpace(s[|s| - 1]))
  }

  /** The end of the run of whitespace that starts at `i`. */
  function SpaceRun(s: string, i: nat): (j: nat)
    requires i <= |s|
    ensures i <= j <= |s|
    ensures forall k :: i <= k < j ==> IsSpace(s[k])
    ensures j == |s| || !IsSpace(s[j])
    decreases |s| - i
  {
    if i < |s| && IsSpace(s[i]) then SpaceRun(s, i + 1) else i
  }

  /** The start of the run of whitespace that ends at `j`, not going below `lo`. */
  function SpaceRunBack(s: string, lo: nat, j: nat): (e: nat)
    requires lo <= j <= |s|
    ensures lo <= e <= j
    ensures forall k :: e <= k < j ==> IsSpace(s[k])
    ensures e == lo || !IsSpace(s[e - 1])
    decreases j
  {
    if j > lo && IsSpace(s[j - 1]) then SpaceRunBack(s, lo, j - 1) else j
  }

  /** Where the text kept by `s.strip()` starts in `s`: after the leading whitespace. */
  function StripStart(s: string): nat {
    SpaceRun(s, 0)
  }

  /** Where the text kept by `s.strip()` ends in `s`: before the trailing whitespace. */
  function StripEnd(s: string): (e: nat)
    ensures StripStart(s) <= e <= |s|
  {
    SpaceRunBack(s, StripStart(s), |s|)
  }

  /** Python's `s.strip()`: `s` without its leading and trailing whitespace. */
  function Strip(s: string): string {
    s[StripStart(s)..StripEnd(s)]
  }

  /** `s.strip()` starts and ends with non-whitespace, and only whitespace was cut off on
      either side. */
  lemma StripSpec(s: string)
    ensures IsStripped(Strip(s))
    ensures forall k :: 0 <= k < StripStart(s) ==> IsSpace(s[k])
    ensures forall k :: StripEnd(s) <= k < |s| ==> IsSpace(s[k])
  {
    var i, e := StripStart(s), StripEnd(s);
    if i < e {
      assert Strip(s)[0] == s[i];
      assert Strip(s)[e - i - 1] == s[e - 1];
    }
  }

  /** Stripping a stripped string changes nothing. */
  lemma StripStripped(s: string)
    requires IsStripped(s)
    ensures Strip(s) == s
  {
    assert StripStart(s) == 0;
    assert StripEnd(s) == |s|;
  }

  /** `strip` is idempotent. */
  lemma StripIdempotent(s: string)
    ensures Strip(Strip(s)) == Strip(s)
  {
    StripSpec(s);
    StripStripped(Strip(s));
  }

  /** Whatever `strip` leaves was already in `s`. */
  lemma StripKeeps(s: string)
    ensures forall c :: c in Strip(s) ==> c in s
  {
    var i := StripStart(s);
    forall j | 0 <= j < |Strip(s)| ensures Strip(s)[j] in s {
      assert s[i + j] == Strip(s)[j];
    }
  }
}
