/**
 Decimal numbers as text.

 - printing, plain, padded with zeros, and by a fixed number of lowest digits;
 - grouping by threes: from the right, by a countdown from the left, and by chunks, which are all the same;
 - parsing of unsigned integers up to a maximum, which undoes printing.
 */
module Decimal {
  import opened Wrappers

  function Pow10(k: nat): (p: nat)
    ensures p > 0
  {
    if k == 0 then 1 else 10 * Pow10(k - 1)
  }

  function DigitChar(d: nat): char
    requires d < 10
  {
    '0' + d as char
  }

  predicate IsDigit(c: char) {
    '0' <= c <= '9'
  }

  function DigitValue(c: char): nat
    requires IsDigit(c)
  {
    c as int - '0' as int
  }

  /** As printed without width. */
  function Dec(n: nat): (s: string)
    ensures s != [] && forall i :: 0 <= i < |s| ==> IsDigit(s[i])
  {
    if n < 10 then [DigitChar(n)] else Dec(n / 10) + [DigitChar(n % 10)]
  }

  /** As printed with a width and leading zeros. */
  function Padded(n: nat, width: nat): string {
    Zeros(if |Dec(n)| < width then width - |Dec(n)| else 0) + Dec(n)
  }

  function Zeros(n: nat): (s: string)
    ensures |s| == n && forall i :: 0 <= i < n ==> s[i] == '0'
  {
    seq(n, _ => '0')
  }

  /** The lowest `width` digits. */
  function Fixed(n: nat, width: nat): (s: string)
    ensures |s| == width
  {
    if width == 0 then "" else Fixed(n / 10, width - 1) + [DigitChar(n % 10)]
  }

  lemma {:induction false} FixedOfZero(width: nat)
    ensures Fixed(0, width) == Zeros(width)
  {
    if width > 0 {
      FixedOfZero(width - 1);
    }
  }

  lemma {:induction false} PaddedIsFixed(n: nat, width: nat)
    requires n < Pow10(width) && width > 0
    ensures Padded(n, width) == Fixed(n, width)
  {
    if n < 10 {
      assert n / 10 == 0 && n % 10 == n;
      FixedOfZero(width - 1);
      assert Padded(n, width) == Zeros(width - 1) + [DigitChar(n)];
    } else {
      assert width > 1 && n / 10 < Pow10(width - 1);
      PaddedIsFixed(n / 10, width - 1);
      var zeros := Zeros(if |Dec(n / 10)| < width - 1 then width - 1 - |Dec(n / 10)| else 0);
      assert zeros + (Dec(n / 10) + [DigitChar(n % 10)]) == (zeros + Dec(n / 10)) + [DigitChar(n % 10)];
    }
  }

  lemma Shift(a: nat, p: nat)
    ensures a * (10 * p) == 10 * (a * p)
    ensures a > 0 && p > 0 ==> a * p > 0
  {
  }

  lemma LastDigit(n: nat, d: nat)
    requires d < 10
    ensures (10 * n + d) / 10 == n && (10 * n + d) % 10 == d
  {
  }

  lemma DecExtend(n: nat, d: nat)
    requires n > 0 && d < 10
    ensures Dec(10 * n + d) == Dec(n) + [DigitChar(d)]
  {
    LastDigit(n, d);
  }

  /** Printing a number made of a higher and a lower part. */
  lemma {:induction false} DecOfParts(a: nat, b: nat, width: nat)
    requires a > 0 && b < Pow10(width)
    ensures Dec(a * Pow10(width) + b) == Dec(a) + Fixed(b, width)
  {
    if width > 0 {
      var p, c, d := Pow10(width - 1), b / 10, b % 10;
      Shift(a, p);
      DecOfParts(a, c, width - 1);
      DecExtend(a * p + c, d);
      assert Dec(a) + (Fixed(c, width - 1) + [DigitChar(d)]) == (Dec(a) + Fixed(c, width - 1)) + [DigitChar(d)];
      assert a * Pow10(width) + b == 10 * (a * p + c) + d;
    }
  }

  lemma {:induction false} DecLength(n: nat, k: nat)
    requires n < Pow10(k) && k > 0
    ensures |Dec(n)| <= k
  {
    if n >= 10 {
      DecLength(n / 10, k - 1);
    }
  }

  // ---- Grouping

  /** Groups of three digits from the right. */
  function Grouped(s: string): string {
    if |s| <= 3 then s else Grouped(s[..|s| - 3]) + "_" + s[|s| - 3..]
  }

  /** Digit by digit: a break where the countdown `position` is at 0, which then starts at 3 again. */
  function WithBreaks(s: string, position: nat): string {
    if s == [] then ""
    else if position == 0 then "_" + [s[0]] + WithBreaks(s[1..], 2)
    else [s[0]] + WithBreaks(s[1..], position - 1)
  }

  /** How many digits come before the first break. */
  function FirstPosition(n: nat): nat {
    if n % 3 == 0 then 3 else n % 3
  }

  lemma {:induction false} BreaksAppend(a: string, b: string, position: nat)
    requires position <= 3 && b != [] && |a| >= position && (|a| - position) % 3 == 0
    ensures WithBreaks(a + b, position) == WithBreaks(a, position) + "_" + WithBreaks(b, 3)
  {
    if a == [] {
      assert a + b == b;
      assert WithBreaks(b, 0) == "_" + WithBreaks(b, 3);
    } else {
      assert (a + b)[1..] == a[1..] + b;
      if position == 0 {
        BreaksAppend(a[1..], b, 2);
        assert "_" + [a[0]] + (WithBreaks(a[1..], 2) + "_" + WithBreaks(b, 3))
            == ("_" + [a[0]] + WithBreaks(a[1..], 2)) + "_" + WithBreaks(b, 3);
      } else {
        BreaksAppend(a[1..], b, position - 1);
        assert [a[0]] + (WithBreaks(a[1..], position - 1) + "_" + WithBreaks(b, 3))
            == ([a[0]] + WithBreaks(a[1..], position - 1)) + "_" + WithBreaks(b, 3);
      }
    }
  }

  lemma {:induction false} ShortHasNoBreak(s: string, position: nat)
    requires |s| <= position
    ensures WithBreaks(s, position) == s
  {
    if s != [] {
      ShortHasNoBreak(s[1..], position - 1);
    }
  }

  lemma FirstPositionFits(n: nat)
    requires n > 0
    ensures FirstPosition(n) <= 3 && (n >= FirstPosition(n)) && (n - FirstPosition(n)) % 3 == 0
    ensures FirstPosition(n + 3) == FirstPosition(n)
  {
  }

  lemma GroupedSplit(a: string, b: string)
    requires a != [] && |b| == 3
    ensures Grouped(a + b) == Grouped(a) + "_" + b
  {
    assert (a + b)[..|a + b| - 3] == a && (a + b)[|a + b| - 3..] == b;
  }

  /** Counting down from the left makes the groups that are formed from the right. */
  lemma {:induction false} BreaksAreGroups(s: string)
    ensures WithBreaks(s, FirstPosition(|s|)) == Grouped(s)
  {
    if |s| <= 3 {
      ShortHasNoBreak(s, FirstPosition(|s|));
    } else {
      var a, b := s[..|s| - 3], s[|s| - 3..];
      assert s == a + b;
      FirstPositionFits(|a|);
      BreaksAppend(a, b, FirstPosition(|a|));
      ShortHasNoBreak(b, 3);
      BreaksAreGroups(a);
      GroupedSplit(a, b);
    }
  }

  /** Chunks of three from the right, as they come. */
  function RChunks(s: string): seq<string> {
    if s == [] then []
    else if |s| <= 3 then [s]
    else [s[|s| - 3..]] + RChunks(s[..|s| - 3])
  }

  function Reversed(s: seq<string>): (r: seq<string>)
    ensures |r| == |s| && forall i :: 0 <= i < |s| ==> r[i] == s[|s| - 1 - i]
  {
    seq(|s|, i requires 0 <= i < |s| => s[|s| - 1 - i])
  }

  function JoinWith(s: seq<string>, separator: string): string {
    if s == [] then ""
    else if |s| == 1 then s[0]
    else JoinWith(s[..|s| - 1], separator) + separator + s[|s| - 1]
  }

  function FormatIntegerWithUnderscores(digits: string): string {
    JoinWith(Reversed(RChunks(digits)), "_")
  }

  lemma {:induction false} ChunksAreGroups(s: string)
    ensures FormatIntegerWithUnderscores(s) == Grouped(s)
  {
    if |s| > 3 {
      var front := s[..|s| - 3];
      ChunksAreGroups(front);
      var r := Reversed(RChunks(s));
      assert r[..|r| - 1] == Reversed(RChunks(front));
      assert |RChunks(front)| > 0;
    } else if s != [] {
      assert Reversed([s]) == [s];
    }
  }

  // ---- Parsing

  function ValueOf(s: string): Option<nat> {
    if s == [] then Some(0)
    else
      var front := ValueOf(s[..|s| - 1]);
      if front.None? || !IsDigit(s[|s| - 1]) then None else Some(10 * front.value + DigitValue(s[|s| - 1]))
  }

  /** Parsing an unsigned integer type: an optional plus sign, at least one digit, no overflow. */
  function ParseUnsigned(s: string, max: nat): Option<nat> {
    var digits := if s != [] && s[0] == '+' then s[1..] else s;
    if digits == [] then None
    else
      var v := ValueOf(digits);
      if v.Some? && v.value <= max then v else None
  }

  lemma {:induction false} ValueOfDec(n: nat)
    ensures ValueOf(Dec(n)) == Some(n)
  {
    if n < 10 {
      assert Dec(n)[..0] == [];
    } else {
      ValueOfDec(n / 10);
      assert Dec(n)[..|Dec(n)| - 1] == Dec(n / 10);
    }
  }

  lemma ParseDec(n: nat, max: nat)
    requires n <= max
    ensures ParseUnsigned(Dec(n), max) == Some(n)
  {
    ValueOfDec(n);
    assert IsDigit(Dec(n)[0]);
  }
}
