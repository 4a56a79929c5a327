/**
 Numbers and times as text, read back.

 What `DigitNum` writes has the digits of the number, with the dot in its place; and a time is displayed as
 that writes its increments, in the largest unit that fits.
 */
module NumberText {
  import opened Wrappers
  import opened Sequences
  import opened Decimal
  import opened DigitNum
  import opened Times

  // ---- Reading what is written

  /** The text without the separators of groups. */
  function Ungrouped(s: string): string {
    if s == [] then "" else (if s[0] == '_' then "" else [s[0]]) + Ungrouped(s[1..])
  }

  lemma {:induction false} UngroupedAppend(a: string, b: string)
    ensures Ungrouped(a + b) == Ungrouped(a) + Ungrouped(b)
  {
    if a == [] {
      assert a + b == b;
    } else {
      assert (a + b)[1..] == a[1..] + b;
      UngroupedAppend(a[1..], b);
      Associate(if a[0] == '_' then "" else [a[0]], Ungrouped(a[1..]), Ungrouped(b));
    }
  }

  lemma {:induction false} UngroupedBreaks(s: string, position: nat)
    requires '_' !in s
    ensures Ungrouped(WithBreaks(s, position)) == s
  {
    if s != [] {
      var rest := WithBreaks(s[1..], if position == 0 then 2 else position - 1);
      UngroupedBreaks(s[1..], if position == 0 then 2 else position - 1);
      assert s == [s[0]] + s[1..];
      UngroupedAppend([s[0]], rest);
      assert [s[0]][1..] == [] && Ungrouped([s[0]]) == [s[0]];
      if position == 0 {
        assert ("_" + [s[0]] + rest)[1..] == [s[0]] + rest;
      }
    }
  }

  lemma UngroupedGroups(s: string)
    requires '_' !in s
    ensures Ungrouped(Grouped(s)) == s
  {
    BreaksAreGroups(s);
    UngroupedBreaks(s, FirstPosition(|s|));
  }

  lemma UngroupedIsPlain(before: string, after: string, omitTrailingDot: bool)
    requires '_' !in before && '_' !in after
    ensures Ungrouped(Layout(before, after, true, omitTrailingDot)) == Layout(before, after, false, omitTrailingDot)
  {
    UngroupedGroups(before);
    UngroupedBreaks(after, 3);
    var dotted := "." + WithBreaks(after, 3);
    assert dotted[1..] == WithBreaks(after, 3);
    UngroupedAppend(Grouped(before), if after == "" && omitTrailingDot then "" else dotted);
  }

  lemma {:induction false} ValueOfFixed(n: nat, width: nat)
    requires n < Pow10(width)
    ensures ValueOf(Fixed(n, width)) == Some(n)
  {
    if width > 0 {
      ValueOfFixed(n / 10, width - 1);
      var s := Fixed(n, width);
      assert s[..|s| - 1] == Fixed(n / 10, width - 1);
    }
  }

  lemma {:induction false} FixedHasDigits(n: nat, width: nat)
    ensures forall i :: 0 <= i < width ==> IsDigit(Fixed(n, width)[i])
  {
    if width > 0 {
      FixedHasDigits(n / 10, width - 1);
    }
  }

  predicate AllDigits(s: string) {
    forall i :: 0 <= i < |s| ==> IsDigit(s[i])
  }

  lemma LayoutIsPlain(before: string, after: string, underscores: bool, omitTrailingDot: bool)
    requires '_' !in before && '_' !in after
    ensures Ungrouped(Layout(before, after, underscores, omitTrailingDot))
         == Layout(before, after, false, omitTrailingDot)
  {
    if underscores {
      UngroupedIsPlain(before, after, omitTrailingDot);
    } else {
      PlainIsUngrouped(before, after, omitTrailingDot);
    }
  }

  lemma PlainLayoutIsSplit(before: string, after: string)
    requires '.' !in before
    ensures SplitOnce(before + ("." + after), '.') == Some((before, after))
  {
    SplitAtSeparator(before, '.', after);
    assert before + ("." + after) == before + ['.'] + after;
  }

  lemma DigitsOnly(s: string)
    requires AllDigits(s)
    ensures '.' !in s && '_' !in s
  {
  }

  /** The two parts of a layout are found again. */
  lemma LayoutIsRead(before: string, after: string, underscores: bool, omitTrailingDot: bool)
    requires AllDigits(before) && AllDigits(after)
    ensures
      var text := Ungrouped(Layout(before, after, underscores, omitTrailingDot));
      if after == "" && omitTrailingDot then text == before && '.' !in text
      else SplitOnce(text, '.') == Some((before, after))
  {
    DigitsOnly(before);
    DigitsOnly(after);
    LayoutIsPlain(before, after, underscores, omitTrailingDot);
    if after == "" && omitTrailingDot {
      AppendNothing(before);
    } else {
      PlainLayoutIsSplit(before, after);
    }
  }

  /**
   What is written can be read: without the separators of groups there are digits, whose number is the
   whole part, then a dot, which is left out only in front of nothing if that is asked for, and
   then as many digits as the precision says, whose number is the rest.
   */
  lemma WrittenIsRead(n: nat, precision: nat, underscores: bool, omitTrailingDot: bool)
    ensures
      var text := Ungrouped(Printed(n, precision, underscores, omitTrailingDot));
      if precision == 0 && omitTrailingDot then
        ValueOf(text) == Some(n) && '.' !in text
      else
        && SplitOnce(text, '.').Some?
        && var (before, after) := SplitOnce(text, '.').value;
           && |after| == precision && ValueOf(before).Some? && ValueOf(after).Some?
           && n == ValueOf(before).value * Pow10(precision) + ValueOf(after).value
  {
    var whole, part := Whole(n, precision), Part(n, precision);
    WholeAndPart(n, precision);
    FixedHasDigits(part, precision);
    ValueOfDec(whole);
    ValueOfFixed(part, precision);
    LayoutIsRead(Dec(whole), Fixed(part, precision), underscores, omitTrailingDot);
  }

  lemma PlainIsUngrouped(before: string, after: string, omitTrailingDot: bool)
    requires '_' !in before && '_' !in after
    ensures Ungrouped(Layout(before, after, false, omitTrailingDot)) == Layout(before, after, false, omitTrailingDot)
  {
    UngroupedSelf(Layout(before, after, false, omitTrailingDot));
  }

  lemma {:induction false} UngroupedSelf(s: string)
    requires '_' !in s
    ensures Ungrouped(s) == s
  {
    if s != [] {
      UngroupedSelf(s[1..]);
      assert s == [s[0]] + s[1..];
    }
  }

  // ---- The text as a whole

  lemma {:induction false} FixedAppend(a: nat, b: nat, width: nat, more: nat)
    requires b < Pow10(more)
    ensures Fixed(a * Pow10(more) + b, width + more) == Fixed(a, width) + Fixed(b, more)
  {
    if more > 0 {
      Shift(a, Pow10(more - 1));
      FixedAppend(a, b / 10, width, more - 1);
      LastDigit(a * Pow10(more - 1) + b / 10, b % 10);
      assert a * Pow10(more) + b == 10 * (a * Pow10(more - 1) + b / 10) + b % 10;
      assert Fixed(a, width) + (Fixed(b / 10, more - 1) + [DigitChar(b % 10)])
          == (Fixed(a, width) + Fixed(b / 10, more - 1)) + [DigitChar(b % 10)];
    }
  }

  lemma BreakAfterThree(a: string, b: string)
    requires |a| == 3 && b != []
    ensures WithBreaks(a + b, 3) == a + "_" + WithBreaks(b, 3)
  {
    BreaksAppend(a, b, 3);
    ShortHasNoBreak(a, 3);
  }

  lemma LaidOut(before: string, after: string)
    requires after != ""
    ensures Layout(before, after, true, true) == Grouped(before) + ("." + WithBreaks(after, 3))
  {
  }

  lemma PrintedParts(n: nat, whole: nat, part: nat, digits: nat)
    requires digits > 0 && Whole(n, digits) == whole && Part(n, digits) == part
    ensures Printed(n, digits, true, true) == Grouped(Dec(whole)) + ("." + WithBreaks(Fixed(part, digits), 3))
  {
    assert |Fixed(part, digits)| == digits;
    LaidOut(Dec(whole), Fixed(part, digits));
  }

  lemma DividedBy(n: nat, whole: nat, part: nat, digits: nat, power: nat)
    requires power == Pow10(digits) && part < power && n == whole * power + part
    ensures Whole(n, digits) == whole && Part(n, digits) == part
  {
    QuotientAndRemainder(whole, part, digits);
  }

  lemma OneAfterDot(a: nat)
    requires a < 1000
    ensures WithBreaks(Fixed(a, 3), 3) == Padded(a, 3)
  {
    PowersOfTen();
    PaddedIsFixed(a, 3);
    ShortHasNoBreak(Fixed(a, 3), 3);
  }

  lemma TwoAfterDot(a: nat, b: nat)
    requires a < 1000 && b < 1000
    ensures WithBreaks(Fixed(1000 * a + b, 6), 3) == Padded(a, 3) + "_" + Padded(b, 3)
  {
    PowersOfTen();
    FixedAppend(a, b, 3, 3);
    PaddedIsFixed(a, 3);
    BreakAfterThree(Fixed(a, 3), Fixed(b, 3));
    OneAfterDot(b);
  }

  lemma NineDigits(n: nat, a: nat, b: nat)
    requires b < 1_000_000 && n == 1_000_000 * a + b
    ensures Fixed(n, 9) == Fixed(a, 3) + Fixed(b, 6)
  {
    PowersOfTen();
    FixedAppend(a, b, 3, 6);
  }

  lemma ThreeAfterDot(n: nat, a: nat, b: nat, c: nat)
    requires a < 1000 && b < 1000 && c < 1000 && n == 1000 * (1000 * a + b) + c
    ensures WithBreaks(Fixed(n, 9), 3) == Padded(a, 3) + "_" + Padded(b, 3) + "_" + Padded(c, 3)
  {
    var lower := 1000 * b + c;
    NineDigits(n, a, lower);
    PaddedOfThree(a);
    TwoAfterDot(b, c);
    ThreeBreaks(Fixed(n, 9), Fixed(a, 3), Fixed(lower, 6), Padded(b, 3), Padded(c, 3));
  }

  lemma ThreeBreaks(s: string, u: string, lower: string, v: string, w: string)
    requires s == u + lower && |u| == 3 && lower != "" && WithBreaks(lower, 3) == v + "_" + w
    ensures WithBreaks(s, 3) == u + "_" + v + "_" + w
  {
    BreakAfterThree(u, lower);
    ThreeParts(u, v, w);
  }

  lemma ThreeParts(u: string, v: string, w: string)
    ensures u + "_" + (v + "_" + w) == u + "_" + v + "_" + w
  {
    assert u + "_" + (v + "_" + w) == u + "_" + v + "_" + w;
  }

  lemma PaddedOfThree(a: nat)
    requires a < 1000
    ensures Padded(a, 3) == Fixed(a, 3)
  {
    PowersOfTen();
    PaddedIsFixed(a, 3);
  }

  /** Number and unit, of which the number has so many digits after the dot. */
  ghost predicate IsText(shown: Shown, n: nat, digits: nat) {
    shown.Text() == Printed(n, digits, true, true) + " " + shown.unit
  }

  lemma TextOfParts(shown: Shown, n: nat, whole: nat, part: nat, digits: nat)
    requires digits > 0 && Whole(n, digits) == whole && Part(n, digits) == part
    requires shown.whole == Grouped(Dec(whole)) && shown.fraction == Some(WithBreaks(Fixed(part, digits), 3))
    ensures IsText(shown, n, digits)
  {
    PrintedParts(n, whole, part, digits);
  }

  lemma TextOfWhole(shown: Shown, n: nat)
    requires shown.whole == Grouped(Dec(n)) && shown.fraction.None?
    ensures IsText(shown, n, 0)
  {
    IntegerPrinted(n);
    assert Grouped(Dec(n)) + "" == Grouped(Dec(n));
  }

  lemma MicroText(t: Time)
    requires IsValid(Micro, t)
    ensures IsText(DisplayMicro(t), Increments(Micro, t), if t.sec >= 1 then 6 else if t.sub >= 1000 then 3 else 0)
  {
    var milli, micro := t.sub / 1000, t.sub % 1000;
    assert t.sub == 1000 * milli + micro && milli < 1000;
    if t.sec >= 1 {
      MicroSecondsText(t, milli, micro);
    } else if t.sub >= 1000 {
      ThousandsText(DisplayMicro(t), milli, micro);
    } else {
      ChunksAreGroups(Dec(t.sub));
      TextOfWhole(DisplayMicro(t), t.sub);
    }
  }

  lemma MicroSecondsText(t: Time, milli: nat, micro: nat)
    requires IsValid(Micro, t) && t.sec >= 1 && milli == t.sub / 1000 < 1000 && micro == t.sub % 1000
    ensures IsText(DisplayMicro(t), Increments(Micro, t), 6)
  {
    PowersOfTen();
    ChunksAreGroups(Dec(t.sec));
    TwoAfterDot(milli, micro);
    DividedBy(Increments(Micro, t), t.sec, t.sub, 6, 1_000_000);
    TextOfParts(DisplayMicro(t), Increments(Micro, t), t.sec, t.sub, 6);
  }

  /** Some thousands, and three digits. */
  lemma ThousandsText(shown: Shown, thousands: nat, ones: nat)
    requires thousands < 1000 && ones < 1000
    requires shown.whole == Dec(thousands) && shown.fraction == Some(Padded(ones, 3))
    ensures IsText(shown, 1000 * thousands + ones, 3)
  {
    PowersOfTen();
    ShortIsOneGroup(thousands);
    OneAfterDot(ones);
    DividedBy(1000 * thousands + ones, thousands, ones, 3, 1000);
    TextOfParts(shown, 1000 * thousands + ones, thousands, ones, 3);
  }

  /** Some millions, and two groups of three digits. */
  lemma MillionsText(shown: Shown, millions: nat, thousands: nat, ones: nat)
    requires millions < 1000 && thousands < 1000 && ones < 1000
    requires shown.whole == Dec(millions) && shown.fraction == Some(Padded(thousands, 3) + "_" + Padded(ones, 3))
    ensures IsText(shown, 1000 * (1000 * millions + thousands) + ones, 6)
  {
    PowersOfTen();
    ShortIsOneGroup(millions);
    TwoAfterDot(thousands, ones);
    var n, part := 1000 * (1000 * millions + thousands) + ones, 1000 * thousands + ones;
    DividedBy(n, millions, part, 6, 1_000_000);
    TextOfParts(shown, n, millions, part, 6);
  }

  lemma NanoSecondsText(sec: nat, nsec: nat, milli: nat, micro: nat, nano: nat)
    requires sec >= 1 && milli < 1000 && micro < 1000 && nano < 1000
    requires nsec == 1000 * (1000 * milli + micro) + nano
    ensures IsText(NanoText(sec, nsec, milli, micro, nano), sec * 1_000_000_000 + nsec, 9)
  {
    PowersOfTen();
    ChunksAreGroups(Dec(sec));
    ThreeAfterDot(nsec, milli, micro, nano);
    DividedBy(sec * 1_000_000_000 + nsec, sec, nsec, 9, 1_000_000_000);
    TextOfParts(NanoText(sec, nsec, milli, micro, nano), sec * 1_000_000_000 + nsec, sec, nsec, 9);
  }

  lemma NanoPartsText(sec: nat, nsec: nat, milli: nat, micro: nat, nano: nat)
    requires milli < 1000 && micro < 1000 && nano < 1000
    requires nsec == 1000 * (1000 * milli + micro) + nano
    ensures IsText(NanoText(sec, nsec, milli, micro, nano), sec * 1_000_000_000 + nsec,
                   if sec >= 1 then 9 else if milli > 0 then 6 else if micro > 0 then 3 else 0)
  {
    var shown := NanoText(sec, nsec, milli, micro, nano);
    if sec >= 1 {
      NanoSecondsText(sec, nsec, milli, micro, nano);
    } else if milli > 0 {
      MillionsText(shown, milli, micro, nano);
    } else if micro > 0 {
      ThousandsText(shown, micro, nano);
    } else {
      ChunksAreGroups(Dec(nsec));
      TextOfWhole(shown, nsec);
    }
  }

  /** The largest unit of which there is at least one, or else the smallest one there is. */
  function UnitFor(r: Resolution, nanoseconds: nat): string {
    if nanoseconds >= 1_000_000_000 then "s"
    else if nanoseconds >= 1_000_000 then "ms"
    else if nanoseconds >= 1000 || r.Micro? then "us"
    else "ns"
  }

  lemma UnitIsLargest(r: Resolution, t: Time)
    requires IsValid(r, t)
    ensures Display(r, t).unit == UnitFor(r, ToNsec(r, t))
  {
    if r.Nano? {
      ThousandsOf(t.sub);
    }
  }

  /** The text is the number of increments, written by `DigitNum` with the dot for that unit, and the unit. */
  lemma TextIsPrinted(r: Resolution, t: Time)
    requires IsValid(r, t)
    ensures
      var shown := Display(r, t);
      && shown.unit == UnitFor(r, ToNsec(r, t))
      && UnitDigits(shown.unit) <= r.SecondDigits()
      && IsText(shown, Increments(r, t), r.SecondDigits() - UnitDigits(shown.unit))
  {
    UnitIsLargest(r, t);
    match r
    case Micro => MicroText(t);
    case Nano => NanoShownText(t);
  }

  lemma NanoShownText(t: Time)
    requires IsValid(Nano, t)
    ensures IsText(DisplayNano(t), Increments(Nano, t), 9 - UnitDigits(DisplayNano(t).unit))
  {
    ThousandsOf(t.sub);
    NanoPartsText(t.sec, t.sub, t.sub / 1000 / 1000, t.sub / 1000 % 1000, t.sub % 1000);
  }
}
