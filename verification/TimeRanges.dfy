/**
 Daily time windows.

 A point in time is the number of nanoseconds since some local midnight; the zone has a fixed offset, so
 that every day has the same length. A window that ends before it starts crosses the day boundary.
 */
module TimeRanges {
  import opened Wrappers

  const SECOND := 1_000_000_000
  const DAY := 86_400_000_000_000

  type Time = int
  type Day = int

  datatype LocalNaiveTime = LocalNaiveTime(hour: nat, minute: nat, second: nat) {
    predicate Valid() {
      hour < 24 && minute < 60 && second < 60
    }

    function Nanos(): int {
      (hour * 3600 + minute * 60 + second) * SECOND
    }

    /** The fields are the hours, the minutes left and the seconds left of that time. */
    lemma NanosAreOnClock()
      requires Valid()
      ensures Nanos() % 1_000_000_000 == 0
      ensures
        var seconds := Nanos() / 1_000_000_000;
        seconds / 60 / 60 == hour && seconds / 60 % 60 == minute && seconds % 60 == second
    {
    }

    /** Field by field, as the ordering is derived. */
    predicate Less(that: LocalNaiveTime) {
      || hour < that.hour
      || (hour == that.hour && minute < that.minute)
      || (hour == that.hour && minute == that.minute && second < that.second)
    }

    lemma LessIsEarlier(that: LocalNaiveTime)
      requires Valid() && that.Valid()
      ensures Less(that) <==> Nanos() < that.Nanos()
      ensures 0 <= Nanos() < DAY
    {
    }
  }

  datatype DateTimeRange = DateTimeRange(from: Time, to: Time) {
    predicate Contains(t: Time) {
      from <= t < to
    }
  }

  /** The days that dates can represent. */
  datatype Calendar = Calendar(first: Day, last: Day) {
    predicate Has(d: Day) {
      first <= d <= last
    }
  }

  function DateOf(t: Time): Day {
    t / DAY
  }

  datatype LocalNaiveTimeRange = LocalNaiveTimeRange(from: LocalNaiveTime, to: LocalNaiveTime) {
    predicate Valid() {
      from.Valid() && to.Valid()
    }

    predicate CrossesDayBoundary() {
      to.Less(from)
    }

    /** The range that starts on day `d`. */
    function Occurrence(d: Day): DateTimeRange {
      DateTimeRange(d * DAY + from.Nanos(), (if CrossesDayBoundary() then d + 1 else d) * DAY + to.Nanos())
    }

    function OnDate(cal: Calendar, d: Day): Option<DateTimeRange> {
      if !cal.Has(d) || (CrossesDayBoundary() && !cal.Has(d + 1)) then None else Some(Occurrence(d))
    }

    /** The range closest to `t`: around it, if that is allowed, or else the closest after it. */
    function AfterDatetime(cal: Calendar, t: Time, allowInside: bool): Option<DateTimeRange>
      requires Valid()
    {
      var nd := DateOf(t);
      var today := OnDate(cal, nd);
      if today.None? then
        None
      else if today.value.Contains(t) then
        if allowInside then today else OnDate(cal, nd + 1)
      else if today.value.to <= t then
        var next := OnDate(cal, nd + 1);
        if next.None? then
          None
        else if !allowInside && next.value.Contains(t) then
          TomorrowStartsLater(t);
          assert false;   // stands for the todo!() of the source
          None
        else
          next
      else
        assert t < today.value.from;
        var prev := OnDate(cal, nd - 1);
        if prev.None? then
          None
        else if prev.value.Contains(t) then
          if allowInside then prev else today
        else if t < prev.value.from then
          prev
        else
          today
    }

    lemma TomorrowStartsLater(t: Time)
      requires Valid()
      ensures Occurrence(DateOf(t) + 1).from > t
    {
      from.LessIsEarlier(to);
    }

    lemma OccurrencesAreDisjoint(t: Time, d: Day, e: Day)
      requires Valid() && Occurrence(d).Contains(t) && Occurrence(e).Contains(t)
      ensures d == e
    {
      from.LessIsEarlier(to);
      to.LessIsEarlier(from);
    }

    /** Only the occurrences of yesterday and of today can contain `t`. */
    lemma ContainingDay(t: Time, d: Day)
      requires Valid() && Occurrence(d).Contains(t)
      ensures d == DateOf(t) || d == DateOf(t) - 1
    {
      from.LessIsEarlier(to);
      to.LessIsEarlier(from);
    }

    ghost predicate FirstStartAfter(t: Time, o: DateTimeRange) {
      && (exists d :: o == Occurrence(d))
      && o.from > t
      && forall d :: Occurrence(d).from > t ==> o.from <= Occurrence(d).from
    }

    lemma StartsInOrder(d: Day, t: Time, o: Day)
      requires Occurrence(d).from > t && Occurrence(o - 1).from <= t
      ensures Occurrence(o).from <= Occurrence(d).from
    {
    }

    lemma IsFirstStart(t: Time, d: Day)
      requires Occurrence(d).from > t && Occurrence(d - 1).from <= t
      ensures FirstStartAfter(t, Occurrence(d))
    {
      forall e | Occurrence(e).from > t { StartsInOrder(e, t, d); }
    }

    /** Without `allowInside` the result is always the earliest occurrence that starts after `t`. */
    lemma NotInsideIsNextStart(cal: Calendar, t: Time)
      requires Valid() && AfterDatetime(cal, t, false).Some?
      ensures FirstStartAfter(t, AfterDatetime(cal, t, false).value)
    {
      from.LessIsEarlier(to);
      to.LessIsEarlier(from);
      var nd := DateOf(t);
      if Occurrence(nd).from <= t {
        IsFirstStart(t, nd + 1);
      } else {
        IsFirstStart(t, nd);
      }
    }

    lemma FindsContaining(cal: Calendar, t: Time, d: Day)
      requires Valid() && AfterDatetime(cal, t, true).Some? && Occurrence(d).Contains(t)
      ensures AfterDatetime(cal, t, true).value == Occurrence(d)
    {
      ContainingDay(t, d);
      from.LessIsEarlier(to);
      to.LessIsEarlier(from);
    }

    lemma FindsNext(cal: Calendar, t: Time)
      requires Valid() && AfterDatetime(cal, t, true).Some?
      requires !Occurrence(DateOf(t)).Contains(t) && !Occurrence(DateOf(t) - 1).Contains(t)
      ensures FirstStartAfter(t, AfterDatetime(cal, t, true).value)
    {
      var nd := DateOf(t);
      from.LessIsEarlier(to);
      to.LessIsEarlier(from);
      IsFirstStart(t, if Occurrence(nd).from <= t then nd + 1 else nd);
    }

    /** With it, the result is the one occurrence around `t` if there is one, else the next one. */
    lemma InsideIsTheContainingOne(cal: Calendar, t: Time)
      requires Valid() && AfterDatetime(cal, t, true).Some?
      ensures
        var o := AfterDatetime(cal, t, true).value;
        if exists d :: Occurrence(d).Contains(t) then
          o.Contains(t) && (forall d :: Occurrence(d).Contains(t) ==> o == Occurrence(d))
        else
          FirstStartAfter(t, o)
    {
      if exists d :: Occurrence(d).Contains(t) {
        forall d | Occurrence(d).Contains(t) { FindsContaining(cal, t, d); }
      } else {
        FindsNext(cal, t);
      }
    }

    /** Only at the edges of the calendar is there no result. */
    lemma ResultInsideCalendar(cal: Calendar, t: Time, allowInside: bool)
      requires Valid() && cal.Has(DateOf(t) - 1) && cal.Has(DateOf(t) + 2)
      ensures AfterDatetime(cal, t, allowInside).Some?
    {
    }

    /** The time of day lies in the window, seen as an interval on the clock face. */
    predicate OnClock(t: Time) {
      var tod := t % DAY;
      if from.Nanos() <= to.Nanos() then from.Nanos() <= tod < to.Nanos()
      else from.Nanos() <= tod || tod < to.Nanos()
    }

    lemma InsideExactlyOnClock(cal: Calendar, t: Time)
      requires Valid() && AfterDatetime(cal, t, true).Some?
      ensures AfterDatetime(cal, t, true).value.Contains(t) <==> OnClock(t)
    {
      from.LessIsEarlier(to);
      to.LessIsEarlier(from);
      var nd := DateOf(t);
      assert t == nd * DAY + t % DAY;
    }
  }
}
