/**
 Time values with a 32-bit second and a 32-bit sub-second part.

 Release builds keep overflow checks on: arithmetic overflow is a panic, and an outcome of its own here.
 */
module Times {
  import opened Wrappers
  import opened Decimal
  import opened DigitNum

  const U32 := 0x1_0000_0000

  /** `Overflow` stands for the panic of an overflow check. */
  datatype Checked<+T> = Value(value: T) | Overflow

  datatype Resolution = Micro | Nano {
    function PerSecond(): nat {
      match this
      case Micro => 1_000_000
      case Nano => 1_000_000_000
    }

    /** Digits after the dot in seconds, and in milliseconds. */
    function SecondDigits(): nat {
      match this
      case Micro => 6
      case Nano => 9
    }

    function MsDigits(): nat {
      match this
      case Micro => 3
      case Nano => 6
    }
  }

  datatype Time = Time(sec: nat, sub: nat)

  /** What the two fields can hold. */
  predicate Fits(t: Time) {
    t.sec < U32 && t.sub < U32
  }

  predicate IsValid(r: Resolution, t: Time) {
    Fits(t) && t.sub < r.PerSecond()
  }

  function Increments(r: Resolution, t: Time): nat {
    t.sec * r.PerSecond() + t.sub
  }

  function AddU32(a: nat, b: nat): Checked<nat> {
    if a + b < U32 then Value(a + b) else Overflow
  }

  function MulU32(a: nat, b: nat): Checked<nat> {
    if a * b < U32 then Value(a * b) else Overflow
  }

  // ---- Arithmetic

  function Add(r: Resolution, a: Time, b: Time): Checked<Time> {
    match AddU32(a.sub, b.sub)
    case Overflow => Overflow
    case Value(sub) =>
      match AddU32(a.sec, b.sec)
      case Overflow => Overflow
      case Value(sec) =>
        if sub >= r.PerSecond() then
          match AddU32(sec, 1)
          case Overflow => Overflow
          case Value(sec) => Value(Time(sec, sub - r.PerSecond()))
        else Value(Time(sec, sub))
  }

  function CheckedSub(r: Resolution, a: Time, b: Time): Checked<Option<Time>>
    requires IsValid(r, b)
  {
    if a.sec < b.sec then Value(None)
    else
      var sec := a.sec - b.sec;
      if a.sub >= b.sub then Value(Some(Time(sec, a.sub - b.sub)))
      else if sec == 0 then Overflow
      else
        match AddU32(a.sub, r.PerSecond())
        case Overflow => Overflow
        case Value(sub) => Value(Some(Time(sec - 1, sub - b.sub)))
  }

  /** Addition is the addition of increments, and it fails exactly when the sum is not representable. */
  lemma AddIsSum(r: Resolution, a: Time, b: Time)
    requires IsValid(r, a) && IsValid(r, b)
    ensures Add(r, a, b).Overflow? <==> Increments(r, a) + Increments(r, b) >= U32 * r.PerSecond()
    ensures Add(r, a, b).Value? ==>
      && IsValid(r, Add(r, a, b).value)
      && Increments(r, Add(r, a, b).value) == Increments(r, a) + Increments(r, b)
  {
    match r
    case Micro =>
    case Nano =>
  }

  /**
   * Subtraction gives the difference exactly for a minuend that is not smaller. A smaller one is
   * reported when its seconds are smaller; when only its sub-second part is, subtraction panics.
   */
  lemma SubIsDifference(r: Resolution, a: Time, b: Time)
    requires IsValid(r, a) && IsValid(r, b)
    ensures var s := CheckedSub(r, a, b);
      && ((s.Value? && s.value.Some?) <==> Increments(r, a) >= Increments(r, b))
      && (s == Value(None) <==> a.sec < b.sec)
      && (s.Overflow? <==> a.sec == b.sec && a.sub < b.sub)
      && (s.Value? && s.value.Some? ==>
            IsValid(r, s.value.value) && Increments(r, s.value.value) == Increments(r, a) - Increments(r, b))
  {
    match r
    case Micro =>
    case Nano =>
  }

  /** A valid time is its number of increments. */
  lemma IncrementsDetermine(r: Resolution, a: Time, b: Time)
    requires IsValid(r, a) && IsValid(r, b) && Increments(r, a) == Increments(r, b)
    ensures a == b
  {
    match r
    case Micro =>
    case Nano =>
  }

  lemma SubUndoesAdd(r: Resolution, a: Time, b: Time)
    requires IsValid(r, a) && IsValid(r, b) && Add(r, a, b).Value?
    ensures CheckedSub(r, Add(r, a, b).value, b) == Value(Some(a))
  {
    AddIsSum(r, a, b);
    SubIsDifference(r, Add(r, a, b).value, b);
    IncrementsDetermine(r, a, CheckedSub(r, Add(r, a, b).value, b).value.value);
  }

  // ---- Conversions

  /** `from_usec` of microseconds and `from_nsec` of nanoseconds. */
  function FromIncrements(r: Resolution, n: nat): Option<Time> {
    var sec := n / r.PerSecond();
    if sec < U32 then Some(Time(sec, n % r.PerSecond())) else None
  }

  function FromUsec(r: Resolution, n: nat): Option<Time> {
    match r
    case Micro => FromIncrements(Micro, n)
    case Nano => if n * 1000 < U64 then FromIncrements(Nano, n * 1000) else None
  }

  function ToNsec(r: Resolution, t: Time): nat {
    match r
    case Micro => t.sec * 1_000_000_000 + t.sub * 1000
    case Nano => t.sec * 1_000_000_000 + t.sub
  }

  function NanoFromMicro(t: Time): Checked<Time> {
    match MulU32(t.sub, 1000)
    case Overflow => Overflow
    case Value(sub) => Value(Time(t.sec, sub))
  }

  lemma RoundTrips(r: Resolution, n: nat, t: Time)
    ensures FromIncrements(r, n).Some? <==> n < U32 * r.PerSecond()
    ensures FromIncrements(r, n).Some? ==>
      IsValid(r, FromIncrements(r, n).value) && Increments(r, FromIncrements(r, n).value) == n
    ensures IsValid(r, t) ==> FromIncrements(r, Increments(r, t)) == Some(t)
  {
    match r
    case Micro =>
      assert IsValid(r, t) ==> t.sec == Increments(r, t) / 1_000_000;
    case Nano =>
      assert IsValid(r, t) ==> t.sec == Increments(r, t) / 1_000_000_000;
  }

  /** The two resolutions accept the same microseconds and mean the same instant; nothing exceeds 64 bits. */
  lemma ResolutionsAgree(n: nat)
    ensures FromUsec(Micro, n).Some? <==> FromUsec(Nano, n).Some?
    ensures FromUsec(Micro, n).Some? ==>
      var micro, nano := FromUsec(Micro, n).value, FromUsec(Nano, n).value;
      && NanoFromMicro(micro) == Value(nano)
      && ToNsec(Micro, micro) == ToNsec(Nano, nano) == 1000 * n < U64
  {
    RoundTrips(Micro, n, Time(0, 0));
    RoundTrips(Nano, n * 1000, Time(0, 0));
    if n < U32 * 1_000_000 {
      var t := FromUsec(Micro, n).value;
      assert n == t.sec * 1_000_000 + t.sub;
      var nano := Time(t.sec, t.sub * 1000);
      RoundTrips(Nano, n * 1000, nano);
    }
  }

  // ---- Printing

  function ToStringMs(r: Resolution, t: Time): Checked<string> {
    var perMs := r.PerSecond() / 1000;
    match MulU32(t.sec, 1000)
    case Overflow => Overflow
    case Value(ms) =>
      match AddU32(ms, t.sub / perMs)
      case Overflow => Overflow
      case Value(ms) => Value(Dec(ms) + "." + Padded(t.sub % perMs, r.MsDigits()))
  }

  function ToStringSeconds(r: Resolution, t: Time): string {
    Dec(t.sec) + "." + Padded(t.sub, r.SecondDigits())
  }

  /** A number with its unit: `whole`, a dot and `fraction` if there is one, a space, `unit`. */
  datatype Shown = Shown(whole: string, fraction: Option<string>, unit: string) {
    function Text(): string {
      whole + (if fraction.Some? then "." + fraction.value else "") + " " + unit
    }

    /** The digits, with the dot read as one more group separator. */
    function DigitGroups(): string {
      if fraction.Some? then whole + "_" + fraction.value else whole
    }
  }

  function DisplayMicro(t: Time): Shown {
    var milli, micro := t.sub / 1000, t.sub % 1000;
    if t.sec >= 1 then
      Shown(FormatIntegerWithUnderscores(Dec(t.sec)), Some(Padded(milli, 3) + "_" + Padded(micro, 3)), "s")
    else if t.sub >= 1000 then
      Shown(Dec(milli), Some(Padded(micro, 3)), "ms")
    else
      Shown(FormatIntegerWithUnderscores(Dec(t.sub)), None, "us")
  }

  function DisplayNano(t: Time): Shown {
    NanoText(t.sec, t.sub, t.sub / 1000 / 1000, t.sub / 1000 % 1000, t.sub % 1000)
  }

  function NanoText(sec: nat, nsec: nat, milli: nat, micro: nat, nano: nat): Shown {
    if sec >= 1 then
      Shown(FormatIntegerWithUnderscores(Dec(sec)),
            Some(Padded(milli, 3) + "_" + Padded(micro, 3) + "_" + Padded(nano, 3)), "s")
    else if milli > 0 then
      Shown(Dec(milli), Some(Padded(micro, 3) + "_" + Padded(nano, 3)), "ms")
    else if micro > 0 then
      Shown(Dec(micro), Some(Padded(nano, 3)), "us")
    else
      Shown(FormatIntegerWithUnderscores(Dec(nsec)), None, "ns")
  }

  function Display(r: Resolution, t: Time): Shown {
    match r
    case Micro => DisplayMicro(t)
    case Nano => DisplayNano(t)
  }

  /** How many digits below the second the unit leaves before the dot. */
  function UnitDigits(unit: string): nat {
    match unit
    case "s" => 0
    case "ms" => 3
    case "us" => 6
    case _ => 9
  }

  // ---- Printing agrees with the decimal digits of the number of increments

  lemma PowersOfTen()
    ensures Pow10(0) == 1 && Pow10(3) == 1000 && Pow10(6) == 1_000_000 && Pow10(9) == 1_000_000_000
  {
    assert Pow10(1) == 10 && Pow10(2) == 100;
    assert Pow10(4) == 10_000 && Pow10(5) == 100_000;
    assert Pow10(7) == 10_000_000 && Pow10(8) == 100_000_000;
  }

  lemma PlainPrinted(n: nat, whole: nat, part: nat, digits: nat)
    requires part < Pow10(digits) && digits > 0 && n == whole * Pow10(digits) + part
    ensures Printed(n, digits, false, false) == Dec(whole) + "." + Padded(part, digits)
  {
    QuotientAndRemainder(whole, part, digits);
    PaddedIsFixed(part, digits);
    PlainLayout(Dec(whole), Fixed(part, digits));
  }

  lemma PlainLayout(before: string, after: string)
    ensures Layout(before, after, false, false) == before + "." + after
  {
    assert before + ("." + after) == before + "." + after;
  }

  lemma SecondsArePrinted(r: Resolution, t: Time)
    requires IsValid(r, t)
    ensures ToStringSeconds(r, t) == Printed(Increments(r, t), r.SecondDigits(), false, false)
  {
    PowersOfTen();
    PlainPrinted(Increments(r, t), t.sec, t.sub, r.SecondDigits());
  }

  /** Milliseconds are printed right when they fit 32 bits, and panic when they do not. */
  lemma MillisecondsArePrinted(r: Resolution, t: Time)
    requires IsValid(r, t)
    ensures ToStringMs(r, t)
         == if Increments(r, t) / (r.PerSecond() / 1000) < U32
            then Value(Printed(Increments(r, t), r.MsDigits(), false, false))
            else Overflow
  {
    PowersOfTen();
    match r
    case Micro =>
      ThousandthsOf(t.sec, t.sub, 1000);
      PlainPrinted(Increments(r, t), t.sec * 1000 + t.sub / 1000, t.sub % 1000, 3);
    case Nano =>
      ThousandthsOf(t.sec, t.sub, 1_000_000);
      PlainPrinted(Increments(r, t), t.sec * 1000 + t.sub / 1_000_000, t.sub % 1_000_000, 6);
  }

  lemma ThousandthsOf(sec: nat, sub: nat, perMs: nat)
    requires perMs == 1000 || perMs == 1_000_000
    ensures (sec * (1000 * perMs) + sub) / perMs == sec * 1000 + sub / perMs
    ensures sec * (1000 * perMs) + sub == (sec * 1000 + sub / perMs) * perMs + sub % perMs
  {
  }

  lemma GroupOfThree(a: nat, b: nat)
    requires a > 0 && b < 1000
    ensures Grouped(Dec(1000 * a + b)) == Grouped(Dec(a)) + "_" + Padded(b, 3)
  {
    PowersOfTen();
    DecOfParts(a, b, 3);
    PaddedIsFixed(b, 3);
    var s := Dec(a) + Fixed(b, 3);
    assert s[..|s| - 3] == Dec(a) && s[|s| - 3..] == Fixed(b, 3);
  }

  lemma ShortIsOneGroup(n: nat)
    requires n < 1000
    ensures Grouped(Dec(n)) == Dec(n)
  {
    PowersOfTen();
    DecLength(n, 3);
  }

  lemma PaddedLength(n: nat)
    requires n < 1000
    ensures |Padded(n, 3)| == 3
  {
    PowersOfTen();
    PaddedIsFixed(n, 3);
  }

  lemma TwoGroups(a: nat, b: nat, c: nat)
    requires a > 0 && b < 1000 && c < 1000
    ensures Grouped(Dec(1000 * (1000 * a + b) + c)) == Grouped(Dec(a)) + "_" + (Padded(b, 3) + "_" + Padded(c, 3))
  {
    GroupOfThree(a, b);
    GroupOfThree(1000 * a + b, c);
    var u, v, w := Grouped(Dec(a)), Padded(b, 3), Padded(c, 3);
    assert u + "_" + v + "_" + w == u + "_" + (v + "_" + w);
  }

  lemma ThreeGroups(a: nat, b: nat, c: nat, d: nat)
    requires a > 0 && b < 1000 && c < 1000 && d < 1000
    ensures Grouped(Dec(1000 * (1000 * (1000 * a + b) + c) + d))
         == Grouped(Dec(a)) + "_" + (Padded(b, 3) + "_" + Padded(c, 3) + "_" + Padded(d, 3))
  {
    TwoGroups(a, b, c);
    GroupOfThree(1000 * (1000 * a + b) + c, d);
    var u, v, w, x := Grouped(Dec(a)), Padded(b, 3), Padded(c, 3), Padded(d, 3);
    assert u + "_" + (v + "_" + w) + "_" + x == u + "_" + (v + "_" + w + "_" + x);
  }

  /** The digits shown are those of the number of increments, in groups of three. */
  lemma DisplayMicroShowsAllDigits(t: Time)
    requires IsValid(Micro, t)
    ensures DisplayMicro(t).DigitGroups() == Grouped(Dec(Increments(Micro, t)))
  {
    var milli, micro := t.sub / 1000, t.sub % 1000;
    assert t.sub == 1000 * milli + micro;
    assert milli < 1000;
    if t.sec >= 1 {
      ChunksAreGroups(Dec(t.sec));
      TwoGroups(t.sec, milli, micro);
    } else if t.sub >= 1000 {
      GroupOfThree(milli, micro);
      ShortIsOneGroup(milli);
    } else {
      ChunksAreGroups(Dec(t.sub));
    }
  }

  lemma ThousandsOf(n: nat)
    requires n < 1_000_000_000
    ensures var a, b, c := n / 1000 / 1000, n / 1000 % 1000, n % 1000;
      a < 1000 && n == 1000 * (1000 * a + b) + c
  {
  }

  lemma NanoTextShowsAllDigits(sec: nat, nsec: nat, milli: nat, micro: nat, nano: nat)
    requires milli < 1000 && micro < 1000 && nano < 1000
    requires nsec == 1000 * (1000 * milli + micro) + nano
    ensures NanoText(sec, nsec, milli, micro, nano).DigitGroups()
         == Grouped(Dec(1000 * (1000 * (1000 * sec + milli) + micro) + nano))
  {
    if sec >= 1 {
      ChunksAreGroups(Dec(sec));
      ThreeGroups(sec, milli, micro, nano);
    } else if milli > 0 {
      TwoGroups(milli, micro, nano);
      ShortIsOneGroup(milli);
    } else if micro > 0 {
      GroupOfThree(micro, nano);
      ShortIsOneGroup(micro);
    } else {
      ChunksAreGroups(Dec(nsec));
    }
  }

  lemma DisplayNanoShowsAllDigits(t: Time)
    requires IsValid(Nano, t)
    ensures DisplayNano(t).DigitGroups() == Grouped(Dec(Increments(Nano, t)))
  {
    ThousandsOf(t.sub);
    NanoTextShowsAllDigits(t.sec, t.sub, t.sub / 1000 / 1000, t.sub / 1000 % 1000, t.sub % 1000);
  }

  lemma MicroDot(t: Time)
    requires IsValid(Micro, t)
    ensures DotFits(Micro, DisplayMicro(t))
  {
    PaddedLength(t.sub / 1000);
    PaddedLength(t.sub % 1000);
  }

  lemma NanoDot(t: Time)
    requires IsValid(Nano, t)
    ensures DotFits(Nano, DisplayNano(t))
  {
    ThousandsOf(t.sub);
    PaddedLength(t.sub / 1000 / 1000);
    PaddedLength(t.sub / 1000 % 1000);
    PaddedLength(t.sub % 1000);
  }

  /** The fraction has the digits of the resolution below the unit, and the separators between them. */
  predicate DotFits(r: Resolution, shown: Shown) {
    && UnitDigits(shown.unit) <= r.SecondDigits()
    && var below := r.SecondDigits() - UnitDigits(shown.unit);
      if below == 0 then shown.fraction.None?
      else shown.fraction.Some? && |shown.fraction.value| == below + (below - 1) / 3
  }

  /**
   * The text shows every digit of the number of increments, as `DigitNum` writes them, and the dot
   * is where the unit says.
   */
  lemma DisplayIsExact(r: Resolution, t: Time)
    requires IsValid(r, t)
    ensures Display(r, t).DigitGroups() == Printed(Increments(r, t), 0, true, true)
    ensures DotFits(r, Display(r, t))
  {
    IntegerPrinted(Increments(r, t));
    match r
    case Micro =>
      DisplayMicroShowsAllDigits(t);
      MicroDot(t);
    case Nano =>
      DisplayNanoShowsAllDigits(t);
      NanoDot(t);
  }

  lemma IntegerPrinted(n: nat)
    ensures Printed(n, 0, true, true) == Grouped(Dec(n))
  {
    assert Grouped(Dec(n)) + "" == Grouped(Dec(n));
  }
}
