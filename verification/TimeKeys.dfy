/**
 The keys of queue entries: insertion time, then process, then a counter within the process.

 Each key is also the name of a file, from which it is read back.
 */
module TimeKeys {
  import opened Wrappers
  import opened Decimal
  import opened Sequences

  datatype TimeKey = TimeKey(nanos: nat, pid: nat, id: nat)

  /** The ranges of the three fields: 128, 32 and 64 bits. */
  const MAX_NANOS: nat := 0x1_0000_0000_0000_0000_0000_0000_0000_0000 - 1
  const MAX_PID: nat := 0x1_0000_0000 - 1
  const MAX_ID: nat := 0x1_0000_0000_0000_0000 - 1

  predicate Fits(k: TimeKey) {
    k.nanos <= MAX_NANOS && k.pid <= MAX_PID && k.id <= MAX_ID
  }

  predicate Before(a: TimeKey, b: TimeKey) {
    || a.nanos < b.nanos
    || (a.nanos == b.nanos && a.pid < b.pid)
    || (a.nanos == b.nanos && a.pid == b.pid && a.id < b.id)
  }

  /** The three fields, first the time, as the digits of one number. */
  function Number(k: TimeKey): nat {
    (k.nanos * (MAX_PID + 1) + k.pid) * (MAX_ID + 1) + k.id
  }

  /** Keys that the program can represent are ordered by that number. */
  lemma BeforeIsNumeric(a: TimeKey, b: TimeKey)
    requires Fits(a) && Fits(b)
    ensures Before(a, b) <==> Number(a) < Number(b)
    ensures Number(a) == Number(b) <==> a == b
  {
    LeadingFirst(a.nanos, a.pid, b.nanos, b.pid, MAX_PID + 1);
    LeadingFirst(a.nanos * (MAX_PID + 1) + a.pid, a.id, b.nanos * (MAX_PID + 1) + b.pid, b.id, MAX_ID + 1);
  }

  lemma LeadingFirst(a: nat, x: nat, b: nat, y: nat, n: nat)
    requires x < n && y < n
    ensures a * n + x < b * n + y <==> a < b || (a == b && x < y)
    ensures a * n + x == b * n + y <==> a == b && x == y
  {
    if a < b {
      LeadingDecides(a, b - a - 1, n);
    } else if b < a {
      LeadingDecides(b, a - b - 1, n);
    }
  }

  lemma LeadingDecides(a: nat, more: nat, n: nat)
    ensures (a + 1 + more) * n >= a * n + n
  {
    assert (a + 1 + more) * n == a * n + n + more * n;
  }

  // ---- File names

  function AsFilename(k: TimeKey): string {
    Dec(k.nanos) + "-" + Dec(k.pid) + "-" + Dec(k.id)
  }

  function Parts(s: string): Option<(string, string, string)> {
    var first := SplitOnce(s, '-');
    if first.None? then None
    else
      var second := SplitOnce(first.value.1, '-');
      if second.None? then None else Some((first.value.0, second.value.0, second.value.1))
  }

  function TryFromFilename(s: string): Option<TimeKey> {
    var parts := Parts(s);
    if parts.None? then None
    else
      var nanos := ParseUnsigned(parts.value.0, MAX_NANOS);
      var pid := ParseUnsigned(parts.value.1, MAX_PID);
      var id := ParseUnsigned(parts.value.2, MAX_ID);
      if nanos.None? || pid.None? || id.None? then None
      else Some(TimeKey(nanos.value, pid.value, id.value))
  }

  /** What a key must look like as a file name. */
  predicate IsFilename(s: string) {
    && 1 <= |s| <= 254
    && s[0] != '.'
    && '/' !in s
    && '\0' !in s
  }

  lemma PartsOfName(a: string, b: string, c: string)
    requires '-' !in a && '-' !in b
    ensures Parts(a + "-" + b + "-" + c) == Some((a, b, c))
  {
    assert a + "-" + b + "-" + c == a + "-" + (b + "-" + c);
    SplitAtSeparator(a, '-', b + "-" + c);
    SplitAtSeparator(b, '-', c);
  }

  /** The name of a key is read back as that key. */
  lemma NameRoundTrip(k: TimeKey)
    requires Fits(k)
    ensures TryFromFilename(AsFilename(k)) == Some(k)
  {
    PartsOfName(Dec(k.nanos), Dec(k.pid), Dec(k.id));
    ParseDec(k.nanos, MAX_NANOS);
    ParseDec(k.pid, MAX_PID);
    ParseDec(k.id, MAX_ID);
  }

  lemma Widths()
    ensures MAX_NANOS < Pow10(39) && MAX_PID < Pow10(10) && MAX_ID < Pow10(20)
  {
    assert Pow10(5) == 100_000 by { assert Pow10(2) == 100; }
    assert Pow10(10) == 10_000_000_000 by { assert Pow10(7) == 10_000_000; }
    TimesTen(10, 10, 10_000_000_000, 10_000_000_000);
    TimesTen(20, 10, 100_000_000_000_000_000_000, 10_000_000_000);
    TimesTen(30, 9, 1_000_000_000_000_000_000_000_000_000_000, 1_000_000_000);
  }

  lemma TimesTen(j: nat, k: nat, p: nat, q: nat)
    requires Pow10(j) == p && k <= 10 && q == Pow10(k)
    ensures Pow10(j + k) == p * q
  {
    PowersAdd(j, k);
  }

  lemma {:induction false} PowersAdd(j: nat, k: nat)
    ensures Pow10(j + k) == Pow10(j) * Pow10(k)
  {
    if k > 0 {
      PowersAdd(j, k - 1);
      Shift(Pow10(j), Pow10(k - 1));
    }
  }

  /** Keys satisfy the rules for file names: the assertions on the name of a key cannot fail. */
  lemma NamesAreFilenames(k: TimeKey)
    requires Fits(k)
    ensures IsFilename(AsFilename(k)) && |AsFilename(k)| <= 71
  {
    Widths();
    DecLength(k.nanos, 39);
    DecLength(k.pid, 10);
    DecLength(k.id, 20);
    var s := AsFilename(k);
    assert forall i :: 0 <= i < |s| ==> IsDigit(s[i]) || s[i] == '-';
    assert s[0] == Dec(k.nanos)[0];
  }

  // ---- Names that other programs leave

  /** Written as a number is printed: no sign, no leading zero. */
  predicate Canonical(s: string) {
    s != [] && s[0] != '+' && (|s| > 1 ==> s[0] != '0')
  }

  lemma {:induction false} DecIsCanonical(n: nat)
    ensures Canonical(Dec(n)) && (n > 0 ==> Dec(n)[0] != '0')
  {
    if n >= 10 {
      DecIsCanonical(n / 10);
      assert Dec(n)[0] == Dec(n / 10)[0];
    }
  }

  lemma {:induction false} CanonicalIsPrinted(s: string)
    requires Canonical(s) && ValueOf(s).Some?
    ensures Dec(ValueOf(s).value) == s && (s[0] != '0' ==> ValueOf(s).value > 0)
  {
    var front, c := s[..|s| - 1], s[|s| - 1];
    if front == [] {
      assert s == [c];
      assert ValueOf(front) == Some(0);
      assert DigitChar(DigitValue(c)) == c;
    } else {
      CanonicalIsPrinted(front);
      DecExtend(ValueOf(front).value, DigitValue(c));
      assert s == front + [c];
    }
  }

  lemma ParsedIsPrinted(s: string, max: nat)
    requires ParseUnsigned(s, max).Some?
    ensures Dec(ParseUnsigned(s, max).value) == s <==> Canonical(s)
  {
    DecIsCanonical(ParseUnsigned(s, max).value);
    if Canonical(s) {
      CanonicalIsPrinted(s);
    }
  }

  /**
   * A file whose name parses is the file of its key exactly when all three numbers are written as
   * they are printed. Any other such file is listed under a key whose file is another one.
   */
  lemma NameIsOfItsKey(s: string)
    requires TryFromFilename(s).Some?
    ensures AsFilename(TryFromFilename(s).value) == s
       <==> Canonical(Parts(s).value.0) && Canonical(Parts(s).value.1) && Canonical(Parts(s).value.2)
  {
    var k := TryFromFilename(s).value;
    var (a, b, c) := Parts(s).value;
    SplitRejoins(s, '-');
    SplitRejoins(SplitOnce(s, '-').value.1, '-');
    ParsedIsPrinted(a, MAX_NANOS);
    ParsedIsPrinted(b, MAX_PID);
    ParsedIsPrinted(c, MAX_ID);
    PartsOfName(Dec(k.nanos), Dec(k.pid), Dec(k.id));
    assert s == a + "-" + b + "-" + c by {
      assert s == a + "-" + (b + "-" + c);
    }
  }

  lemma ForeignName()
    ensures TryFromFilename("+7-1-2") == Some(TimeKey(7, 1, 2)) && AsFilename(TimeKey(7, 1, 2)) == "7-1-2"
  {
    PartsOfName("+7", "1", "2");
    assert "+7" + "-" + "1" + "-" + "2" == "+7-1-2";
    assert Dec(7) == "7" && Dec(1) == "1" && Dec(2) == "2";
    assert "+7"[1..] == Dec(7);
    ValueOfDec(7);
    ParseDec(1, MAX_PID);
    ParseDec(2, MAX_ID);
  }
}
