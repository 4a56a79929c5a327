/**
 Numbers as vectors of decimal digits, with a dot in front of the last `precision` of them.

 The digits before and after the dot are the quotient and the remainder of the value by a power of ten;
 the loops that write them, digit by digit with a countdown to the next separator, write the decimal
 notation of that number.
 */
module DigitNum {
  import opened Wrappers
  import opened Decimal
  import opened Sequences

  const U64 := 0x1_0000_0000_0000_0000

  datatype Error = OutOfRange

  predicate Digits(s: seq<nat>) {
    forall i :: 0 <= i < |s| ==> s[i] < 10
  }

  function ValueOfDigits(s: seq<nat>): nat {
    if s == [] then 0 else 10 * ValueOfDigits(s[..|s| - 1]) + s[|s| - 1]
  }

  function Chars(s: seq<nat>): (r: string)
    requires Digits(s)
    ensures |r| == |s| && forall i :: 0 <= i < |s| ==> r[i] == DigitChar(s[i])
  {
    seq(|s|, i requires 0 <= i < |s| => DigitChar(s[i]))
  }

  /** What is before the dot and what is after it. */
  function Before(s: seq<nat>, precision: nat): (r: string)
    requires Digits(s)
  {
    if |s| > precision then Chars(s[..|s| - precision]) else "0"
  }

  function After(s: seq<nat>, precision: nat): (r: string)
    requires Digits(s)
  {
    if |s| > precision then Chars(s[|s| - precision..]) else Zeros(precision - |s|) + Chars(s)
  }

  /** Without the last `precision` digits, and those digits. */
  function Whole(n: nat, precision: nat): nat {
    if precision == 0 then n else Whole(n / 10, precision - 1)
  }

  function Part(n: nat, precision: nat): nat {
    if precision == 0 then 0 else 10 * Part(n / 10, precision - 1) + n % 10
  }

  /** The decimal notation of the number `n / 10^precision`. */
  function Printed(n: nat, precision: nat, underscores: bool, omitTrailingDot: bool): string {
    Layout(Dec(Whole(n, precision)), Fixed(Part(n, precision), precision), underscores, omitTrailingDot)
  }

  function Layout(before: string, after: string, underscores: bool, omitTrailingDot: bool): string {
    (if underscores then Grouped(before) else before)
    + (if after == "" && omitTrailingDot then ""
       else "." + (if underscores then WithBreaks(after, 3) else after))
  }

  // ---- The digits are those of the value

  lemma {:induction false} DigitsArePrinted(s: seq<nat>)
    requires Digits(s) && s != [] && s[0] != 0
    ensures ValueOfDigits(s) > 0 && Chars(s) == Dec(ValueOfDigits(s))
  {
    var front, d := s[..|s| - 1], s[|s| - 1];
    if front == [] {
      assert ValueOfDigits(s) == d;
      assert Chars(s) == [DigitChar(d)];
    } else {
      DigitsArePrinted(front);
      DecExtend(ValueOfDigits(front), d);
      assert Chars(s) == Chars(front) + [DigitChar(d)];
    }
  }

  /** They are the quotient and the remainder by a power of ten. */
  lemma {:induction false} WholeAndPart(n: nat, precision: nat)
    ensures n == Whole(n, precision) * Pow10(precision) + Part(n, precision)
    ensures Part(n, precision) < Pow10(precision)
  {
    if precision > 0 {
      WholeAndPart(n / 10, precision - 1);
      Shift(Whole(n / 10, precision - 1), Pow10(precision - 1));
    }
  }

  /** And the only ones. */
  lemma {:induction false} QuotientAndRemainder(whole: nat, part: nat, precision: nat)
    requires part < Pow10(precision)
    ensures Whole(whole * Pow10(precision) + part, precision) == whole
    ensures Part(whole * Pow10(precision) + part, precision) == part
  {
    if precision > 0 {
      var p := Pow10(precision - 1);
      Shift(whole, p);
      QuotientAndRemainder(whole, part / 10, precision - 1);
      LastDigit(whole * p + part / 10, part % 10);
    }
  }

  ghost predicate CutFits(s: seq<nat>, precision: nat)
    requires Digits(s)
  {
    && Before(s, precision) == Dec(Whole(ValueOfDigits(s), precision))
    && After(s, precision) == Fixed(Part(ValueOfDigits(s), precision), precision)
  }

  /** Cutting the digits at the dot is dividing the value by a power of ten. */
  lemma {:induction false} CutIsDivision(s: seq<nat>, precision: nat)
    requires Digits(s) && (s != [] ==> s[0] != 0)
    ensures CutFits(s, precision)
  {
    if s == [] {
      CutNothing(precision);
    } else if precision == 0 {
      CutAtTheEnd(s);
    } else {
      CutIsDivision(s[..|s| - 1], precision - 1);
      CutOneMore(s, precision);
    }
  }

  lemma CutNothing(precision: nat)
    ensures CutFits([], precision)
  {
    ZeroHasNoDigits(precision);
    FixedOfZero(precision);
    assert Zeros(precision) + "" == Zeros(precision);
  }

  lemma CutOneMore(s: seq<nat>, precision: nat)
    requires Digits(s) && s != [] && precision > 0 && CutFits(s[..|s| - 1], precision - 1)
    ensures CutFits(s, precision)
  {
    PartSteps(ValueOfDigits(s[..|s| - 1]), s[|s| - 1], precision);
    BeforeSteps(s, precision);
    AfterSteps(s, precision);
  }

  lemma CutAtTheEnd(s: seq<nat>)
    requires Digits(s) && s != [] && s[0] != 0
    ensures CutFits(s, 0)
  {
    DigitsArePrinted(s);
    assert s[..|s|] == s;
  }

  lemma PartSteps(n: nat, d: nat, precision: nat)
    requires d < 10 && precision > 0
    ensures Whole(10 * n + d, precision) == Whole(n, precision - 1)
    ensures Fixed(Part(10 * n + d, precision), precision)
         == Fixed(Part(n, precision - 1), precision - 1) + [DigitChar(d)]
  {
    LastDigit(n, d);
    LastDigit(Part(n, precision - 1), d);
  }

  lemma {:induction false} ZeroHasNoDigits(precision: nat)
    ensures Whole(0, precision) == 0 && Part(0, precision) == 0
  {
    if precision > 0 {
      ZeroHasNoDigits(precision - 1);
    }
  }

  lemma BeforeSteps(s: seq<nat>, precision: nat)
    requires Digits(s) && s != [] && precision > 0
    ensures Before(s, precision) == Before(s[..|s| - 1], precision - 1)
  {
    if |s| > precision {
      assert s[..|s| - 1][..|s| - precision] == s[..|s| - precision];
    }
  }

  lemma AfterSteps(s: seq<nat>, precision: nat)
    requires Digits(s) && s != [] && precision > 0
    ensures After(s, precision) == After(s[..|s| - 1], precision - 1) + [DigitChar(s[|s| - 1])]
  {
    if |s| > precision {
      AfterStepsLong(s, precision);
    } else {
      AfterStepsShort(s, precision);
    }
  }

  lemma AfterStepsLong(s: seq<nat>, precision: nat)
    requires Digits(s) && |s| > precision > 0
    ensures After(s, precision) == After(s[..|s| - 1], precision - 1) + [DigitChar(s[|s| - 1])]
  {
    var front, last := s[..|s| - 1], s[|s| - 1];
    CharsAppend(front[|s| - precision..], last);
    assert s[|s| - precision..] == front[|s| - precision..] + [last];
  }

  lemma AfterStepsShort(s: seq<nat>, precision: nat)
    requires Digits(s) && 0 < |s| <= precision
    ensures After(s, precision) == After(s[..|s| - 1], precision - 1) + [DigitChar(s[|s| - 1])]
  {
    var front, last := s[..|s| - 1], s[|s| - 1];
    CharsAppend(front, last);
    assert s == front + [last];
    Associate(Zeros(precision - |s|), Chars(front), [DigitChar(last)]);
  }

  lemma CharsAppend(s: seq<nat>, d: nat)
    requires Digits(s) && d < 10
    ensures Digits(s + [d]) && Chars(s + [d]) == Chars(s) + [DigitChar(d)]
  {
  }

  lemma {:induction false} PrefixIsSmaller(s: seq<nat>, i: nat)
    requires i <= |s|
    ensures ValueOfDigits(s[..i]) <= ValueOfDigits(s)
  {
    if i == |s| {
      assert s[..i] == s;
    } else {
      PrefixIsSmaller(s[..|s| - 1], i);
      assert s[..|s| - 1][..i] == s[..i];
    }
  }

  /** How many zeros the part after the dot starts with, and the first digit that is in it. */
  function Missing(s: seq<nat>, precision: nat): nat {
    if |s| > precision then 0 else precision - |s|
  }

  function First(s: seq<nat>, precision: nat): nat {
    if |s| > precision then |s| - precision else 0
  }

  /** The digits `first` to `end` are those of a text from position `done` on. */
  ghost predicate Continues(s: seq<nat>, first: nat, end: nat, text: string, done: nat)
    requires Digits(s) && first <= end <= |s| && done + (end - first) == |text|
  {
    text[done..] == Chars(s[first..end])
  }

  lemma AfterCharacters(s: seq<nat>, precision: nat)
    requires Digits(s)
    ensures |After(s, precision)| == precision == Missing(s, precision) + (|s| - First(s, precision))
    ensures After(s, precision)[..Missing(s, precision)] == Zeros(Missing(s, precision))
    ensures Continues(s, First(s, precision), |s|, After(s, precision), Missing(s, precision))
  {
    assert s[0..|s|] == s;
    assert Zeros(0) == "";
  }

  // ---- Writing digit by digit

  /** What the countdown has become after writing `s`. */
  function Countdown(s: string, position: nat): (r: nat)
    requires position <= 3
    ensures r <= 3
  {
    if s == [] then position else Countdown(s[1..], if position == 0 then 2 else position - 1)
  }

  function Step(c: char, position: nat): string {
    if position == 0 then "_" + [c] else [c]
  }

  lemma {:induction false} BreaksSnoc(s: string, c: char, position: nat)
    requires position <= 3
    ensures WithBreaks(s + [c], position) == WithBreaks(s, position) + Step(c, Countdown(s, position))
    ensures Countdown(s + [c], position)
         == if Countdown(s, position) == 0 then 2 else Countdown(s, position) - 1
  {
    if s == [] {
      assert s + [c] == [c];
      assert WithBreaks([c], position) == Step(c, position) by {
        assert [c][1..] == [];
      }
    } else {
      assert (s + [c])[1..] == s[1..] + [c];
      BreaksSnoc(s[1..], c, if position == 0 then 2 else position - 1);
    }
  }

  function Shown(s: string, start: nat, underscores: bool): string {
    if underscores then WithBreaks(s, start) else s
  }

  lemma NextCharacter(s: seq<nat>, first: nat, end: nat, text: string, done: nat, i: nat)
    requires Digits(s) && first <= i < end <= |s| && done + (end - first) == |text|
    requires Continues(s, first, end, text, done)
    ensures text[done + i - first] == DigitChar(s[i])
  {
    assert text[done..][i - first] == text[done + i - first];
    assert s[first..end][i - first] == s[i];
  }

  class DigitNum {
    const precision: nat
    var digits: seq<nat>

    predicate Valid()
      reads this
    {
      Digits(digits) && (digits != [] ==> digits[0] != 0)
    }

    function Value(): nat
      reads this
    {
      ValueOfDigits(digits)
    }

    constructor (precision: nat)
      ensures Valid() && Value() == 0 && this.precision == precision
    {
      this.precision := precision;
      digits := [];
    }

    method PushLowestDigit(d: nat)
      requires Valid() && d < 10
      modifies this
      ensures Valid() && Value() == 10 * old(Value()) + d
    {
      if d == 0 && digits == [] {
        return;
      }
      ghost var before := digits;
      digits := digits + [d];
      assert digits[..|digits| - 1] == before;
    }

    /** Writes one character of a group. */
    method WriteDigit(out: string, position: nat, c: char, underscores: bool,
                      ghost prefix: string, ghost written: string, ghost start: nat)
      returns (out': string, position': nat)
      requires start <= 3 && position == Countdown(written, start)
      requires out == prefix + Shown(written, start, underscores)
      ensures out' == prefix + Shown(written + [c], start, underscores)
      ensures position' == Countdown(written + [c], start)
    {
      BreaksSnoc(written, c, start);
      out', position' := out, position;
      if position' == 0 {
        if underscores {
          out' := out' + "_";
        }
        position' := 3;
      }
      position' := position' - 1;
      out' := out' + [c];
      Associate(out, "_", [c]);
      Associate(prefix, Shown(written, start, underscores), if underscores then Step(c, position) else [c]);
    }

    /**
     Continues a part with `text`, of which `done` characters are written after `prefix`, by the digits
     `first` to `end`.
     */
    method WriteDigits(head: string, first: nat, end: nat, underscores: bool, position: nat,
                       ghost prefix: string, ghost text: string, ghost done: nat, ghost start: nat)
      returns (out: string)
      requires Valid() && first <= end <= |digits| && start <= 3
      requires done + (end - first) == |text| && Continues(digits, first, end, text, done)
      requires position == Countdown(text[..done], start)
      requires head == prefix + Shown(text[..done], start, underscores)
      ensures out == prefix + Shown(text, start, underscores)
    {
      var position, i := position, first;
      ghost var d := done;
      out := head;
      while i < end
        invariant first <= i <= end && d == done + i - first
        invariant position == Countdown(text[..d], start)
        invariant out == prefix + Shown(text[..d], start, underscores)
      {
        var c := DigitChar(digits[i]);
        NextCharacter(digits, first, end, text, done, i);
        assert text[..d + 1] == text[..d] + [c];
        out, position := WriteDigit(out, position, c, underscores, prefix, text[..d], start);
        d, i := d + 1, i + 1;
      }
      assert text[..d] == text;
    }

    method WriteZeros(
        head: string, count: nat, underscores: bool, ghost text: string)
      returns (out: string, position: nat)
      requires count <= |text| && text[..count] == Zeros(count)
      ensures position == Countdown(text[..count], 3)
      ensures out == head + Shown(text[..count], 3, underscores)
    {
      var j := 0;
      position, out := 3, head;
      assert head + "" == head;
      while j < count
        invariant j <= count
        invariant position == Countdown(text[..j], 3)
        invariant out == head + Shown(text[..j], 3, underscores)
      {
        assert text[j] == text[..count][j] == '0';
        assert text[..j + 1] == text[..j] + ['0'];
        out, position := WriteDigit(out, position, '0', underscores, head, text[..j], 3);
        j := j + 1;
      }
    }

    method WriteBefore(underscores: bool) returns (out: string)
      requires Valid()
      ensures out == if underscores then Grouped(Before(digits, precision)) else Before(digits, precision)
    {
      if |digits| > precision {
        ghost var before := Before(digits, precision);
        var lenBefore := |digits| - precision;
        var position := lenBefore % 3;
        if position == 0 {
          position := 3;
        }
        BreaksAreGroups(before);
        assert before[0..] == before;
        out := WriteDigits("", 0, lenBefore, underscores, position, "", before, 0, position);
      } else {
        out := "0";
      }
    }

    method WriteAfter(head: string, underscores: bool) returns (out: string)
      requires Valid()
      ensures out == head + ("." + Shown(After(digits, precision), 3, underscores))
    {
      ghost var after := After(digits, precision);
      var missing, first := Missing(digits, precision), First(digits, precision);
      AfterCharacters(digits, precision);
      var position;
      out, position := WriteZeros(head + ".", missing, underscores, after);
      out := WriteDigits(out, first, |digits|, underscores, position, head + ".", after, missing, 3);
      Associate(head, ".", Shown(after, 3, underscores));
    }

    method Write(underscores: bool, omitTrailingDot: bool) returns (out: string)
      requires Valid()
      ensures out == Printed(Value(), precision, underscores, omitTrailingDot)
    {
      CutIsDivision(digits, precision);
      out := WriteBefore(underscores);
      if precision == 0 && omitTrailingDot {
        assert out + "" == out;
        return;
      }
      out := WriteAfter(out, underscores);
    }

    /** Ignores the dot. */
    method ToU64() returns (r: Result<nat, Error>)
      requires Valid()
      ensures r == if Value() < U64 then Success(Value()) else Failure(OutOfRange)
    {
      var num: nat, i := 0, 0;
      while i < |digits|
        invariant i <= |digits| && num == ValueOfDigits(digits[..i]) && num < U64
      {
        assert digits[..i + 1][..i] == digits[..i];
        PrefixIsSmaller(digits, i + 1);
        if num * 10 >= U64 {
          return Failure(OutOfRange);
        }
        num := num * 10;
        if num + digits[i] >= U64 {
          return Failure(OutOfRange);
        }
        num := num + digits[i];
        i := i + 1;
      }
      assert digits[..i] == digits;
      return Success(num);
    }
  }
}
