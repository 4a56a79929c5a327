module InactiveTail {
  // Loading panics once an inactive queue of the pipeline, which may be its last one, holds a job: exactly when.

  import opened Wrappers
  import opened TimeKeys
  import opened TimeRanges
  import opened Jobs
  import opened RunQueue
  import opened Scheduler
  import opened RunQueues

  predicate LoadingPanics(qs: Queues) {
    exists i :: 0 <= i < |qs.pipeline| && qs.pipeline[i].condition.Inactive? && qs.pipeline[i].entries != []
  }

  /** The conditions of the queues of the pipeline, and which of the two extra queues there are. */
  datatype Config = Config(conditions: seq<ScheduleCondition>, erroneous: bool, done: bool) {
    /** As accepted: there are queues, and only the last one may be inactive. */
    predicate Accepted() {
      && conditions != [] && (forall i :: 0 <= i < |conditions| ==> conditions[i].Valid())
      && forall i :: 0 <= i < |conditions| - 1 ==> !conditions[i].Inactive?
    }

    function Holding(k: nat, es: Entries): Queues {
      Queues(seq(|conditions|, i requires 0 <= i < |conditions| =>
               Queue(conditions[i], if i == k then es else [])),
             if erroneous then Some([]) else None, if done then Some([]) else None)
    }

    function Empty(): Queues {
      Holding(0, [])
    }
  }

  /** From empty queues on, with jobs that are inserted, and run when the clock and the selection say so. */
  ghost predicate CanPanic(config: Config, cal: Calendar, start: Time) {
    exists steps, qs :: SelectedRun(config.Empty(), cal, start, steps, qs) && LoadingPanics(qs)
  }

  /** There is a time of day at which jobs of the queue are run. */
  predicate CanOpen(condition: ScheduleCondition) {
    match condition
    case Immediately(_) => true
    case LocalNaiveTimeWindow(_, _, _, _, _, from, to) => from != to
    case Inactive => false
  }

  predicate Passes(condition: ScheduleCondition) {
    CanOpen(condition) && !Repeats(condition)
  }

  /** A job can get to the end: every queue on the way opens and passes it on, and its count lasts that long. */
  predicate LastIsReachable(conditions: seq<ScheduleCondition>) {
    |conditions| <= 255 && forall i :: 0 <= i < |conditions| - 1 ==> Passes(conditions[i])
  }

  // ---- When a queue is open

  lemma EmptyExactlyIfSame(from: LocalNaiveTime, to: LocalNaiveTime)
    requires from.Valid() && to.Valid()
    ensures from.Nanos() == to.Nanos() <==> from == to
  {
    from.LessIsEarlier(to);
    to.LessIsEarlier(from);
  }

  lemma RunnableCanOpen(q: Queue, cal: Calendar, t: Time)
    requires Runnable(q, cal, t)
    ensures CanOpen(q.condition)
  {
    if q.condition.LocalNaiveTimeWindow? {
      LocalNaiveTimeRange(q.condition.from, q.condition.to).InsideExactlyOnClock(cal, t);
    }
  }

  /** A moment of day `d` at which the queue is open, if it ever is. */
  function Moment(condition: ScheduleCondition, d: Day): Time {
    d * DAY + if condition.LocalNaiveTimeWindow? then condition.from.Nanos() else 0
  }

  lemma MomentOnDay(condition: ScheduleCondition, d: Day)
    requires condition.Valid()
    ensures d * DAY <= Moment(condition, d) < (d + 1) * DAY && DateOf(Moment(condition, d)) == d
    ensures condition.LocalNaiveTimeWindow? ==> Moment(condition, d) % DAY == condition.from.Nanos()
  {
    if condition.LocalNaiveTimeWindow? {
      condition.from.LessIsEarlier(condition.to);
    }
  }

  lemma OpenAtMoment(q: Queue, cal: Calendar, d: Day)
    requires q.condition.Valid() && CanOpen(q.condition) && cal.Has(d - 1) && cal.Has(d + 2)
    ensures Runnable(q, cal, Moment(q.condition, d))
  {
    if q.condition.LocalNaiveTimeWindow? {
      MomentOnDay(q.condition, d);
      EmptyExactlyIfSame(q.condition.from, q.condition.to);
      q.condition.RunnableExactlyInWindow(cal, Moment(q.condition, d));
    }
  }

  // ---- Nothing gets further than that

  predicate Fits(conditions: seq<ScheduleCondition>, k: nat, job: Job)
    requires k < |conditions|
  {
    && job.state.remainingCount + k <= 255 && (k > 0 ==> job.state.remainingCount > 0)
    && forall r :: 0 <= r < k ==> Passes(conditions[r])
  }

  ghost predicate AllFit(conditions: seq<ScheduleCondition>, qs: Queues) {
    && |qs.pipeline| == |conditions|
    && forall k :: 0 <= k < |conditions| ==>
         qs.pipeline[k].condition == conditions[k] && FitIn(conditions, k, qs.pipeline[k].entries)
  }

  ghost predicate FitIn(conditions: seq<ScheduleCondition>, k: nat, es: Entries)
    requires k < |conditions|
  {
    forall x :: x in es ==> Fits(conditions, k, x.job)
  }

  lemma InsertFits(conditions: seq<ScheduleCondition>, k: nat, es: Entries, e: Entry)
    requires k < |conditions| && FitIn(conditions, k, es) && Fits(conditions, k, e.job)
    ensures FitIn(conditions, k, Insert(es, e))
  {
    forall x | x in Insert(es, e) { InsertKeeps(es, e, x); }
  }

  lemma StepKeepsFits(conditions: seq<ScheduleCondition>, qs: Queues, s: Step)
    requires AllFit(conditions, qs) && Enabled(qs, s)
    requires s.RunJob? ==> CanOpen(conditions[s.i])
    ensures AllFit(conditions, Next(qs, s))
  {
    if s.RunJob? {
      PushSucceeds(qs, s);
      var a, v := AroundOf(qs, s.i), VerdictOf(qs, s);
      var copy := Rescheduled(s.e, v, s.now);
      assert Fits(conditions, s.i, s.e.job);
      if v.dest.ToCurrent? {
        InsertFits(conditions, s.i, a.current, copy);
      } else if v.dest.ToNext? {
        InsertFits(conditions, s.i + 1, a.next.value, copy);
      }
      var pushed := Push(a, v.dest, copy).value;
      forall x | x in RemoveKey(pushed.current, s.e.key) { RemoveKeepsOthers(pushed.current, s.e.key, x); }
      assert FitIn(conditions, s.i, RemoveKey(pushed.current, s.e.key));
    } else {
      InsertFits(conditions, 0, qs.pipeline[0].entries, Entry(s.now, s.job));
    }
  }

  lemma {:induction false} RunKeepsFits(
      conditions: seq<ScheduleCondition>, qs: Queues, cal: Calendar, start: Time, steps: seq<Timed>, qs': Queues)
    requires AllFit(conditions, qs) && SelectedRun(qs, cal, start, steps, qs')
    ensures AllFit(conditions, qs')
    decreases |steps|
  {
    if steps != [] {
      var s := steps[0].step;
      if s.RunJob? {
        SelectedIsRunnable(qs, cal, steps[0]);
        RunnableCanOpen(qs.pipeline[s.i], cal, steps[0].at);
      }
      StepKeepsFits(conditions, qs, s);
      RunKeepsFits(conditions, Next(qs, s), cal, steps[0].at, steps[1..], qs');
    }
  }

  // ---- A job that gets that far

  function Key(k: nat): TimeKey {
    TimeKey(k, 0, 0)
  }

  function Traveller(n: nat, k: nat): Job
    requires k < n <= 255
  {
    Job(JobPublic(None, "", "", ""), JobState(n - k, 1, if k == 0 then None else Some(0)), NORMAL, NORMAL)
  }

  function Station(config: Config, k: nat): Queues
    requires k < |config.conditions| <= 255
  {
    config.Holding(k, [Entry(Key(k), Traveller(|config.conditions|, k))])
  }

  function EndOf(start: Time, steps: seq<Timed>): Time {
    if steps == [] then start else steps[|steps| - 1].at
  }

  lemma {:induction false} RunSnoc(
      qs: Queues, cal: Calendar, start: Time, steps: seq<Timed>, mid: Queues, ts: Timed)
    requires SelectedRun(qs, cal, start, steps, mid) && IsSelected(mid, cal, ts) && EndOf(start, steps) <= ts.at
    ensures SelectedRun(qs, cal, start, steps + [ts], Next(mid, ts.step))
    decreases |steps|
  {
    if steps != [] {
      assert (steps + [ts])[1..] == steps[1..] + [ts];
      RunSnoc(Next(qs, steps[0].step), cal, steps[0].at, steps[1..], mid, ts);
    }
  }

  lemma Advance(config: Config, k: nat) returns (s: Step)
    requires config.Accepted() && LastIsReachable(config.conditions) && k + 1 < |config.conditions|
    ensures s.RunJob? && s.i == k && s.e == Station(config, k).pipeline[k].entries[0]
    ensures Enabled(Station(config, k), s) && Next(Station(config, k), s) == Station(config, k + 1)
  {
    var qs, n := Station(config, k), |config.conditions|;
    var e := Entry(Key(k), Traveller(n, k));
    s := RunJob(k, e, true, 0, Key(k + 1));
    assert !KeyInUse(qs, Key(k + 1));
    assert Passes(config.conditions[k]);
    var a := AroundOf(qs, k);
    assert a == Around([e], Some([]), qs.erroneous, qs.done);
    var copy := Entry(Key(k + 1), Traveller(n, k + 1));
    assert Rescheduled(e, VerdictOf(qs, s), Key(k + 1)) == copy;
    assert Insert([], copy) == [copy];
    assert Push(a, ToNext, copy) == Success(Around([e], Some([copy]), qs.erroneous, qs.done));
    assert RemoveKey([e], e.key) == [];
    assert WithAround(qs, k, Around([], Some([copy]), qs.erroneous, qs.done)) == Station(config, k + 1);
  }

  /** It is the only job, so that it is selected as soon as its queue is open. */
  lemma IsSelectedAtStation(config: Config, cal: Calendar, k: nat, d: Day, s: Step)
    requires config.Accepted() && LastIsReachable(config.conditions) && k + 1 < |config.conditions|
    requires Enabled(Station(config, k), s) && cal.Has(d - 1) && cal.Has(d + 2)
    requires s.RunJob? && s.i == k && s.e == Station(config, k).pipeline[k].entries[0]
    ensures IsSelected(Station(config, k), cal, Timed(s, Moment(config.conditions[k], d)))
  {
    var qs := Station(config, k);
    assert Passes(config.conditions[k]);
    OpenAtMoment(qs.pipeline[k], cal, d);
    OnlyQueueIsSelected(qs.pipeline, cal, Moment(config.conditions[k], d), |qs.pipeline|, k);
  }

  lemma Depart(config: Config, cal: Calendar, start: Time) returns (ts: Timed)
    requires config.Accepted() && |config.conditions| <= 255
    ensures ts.at == start && IsSelected(config.Empty(), cal, ts)
    ensures Next(config.Empty(), ts.step) == Station(config, 0)
  {
    var job := Traveller(|config.conditions|, 0);
    ts := Timed(InsertJob(job, Key(0)), start);
    assert !KeyInUse(config.Empty(), Key(0));
    assert Insert([], Entry(Key(0), job)) == [Entry(Key(0), job)];
  }

  lemma StepOnDay(config: Config, cal: Calendar, k: nat, d: Day) returns (ts: Timed)
    requires config.Accepted() && LastIsReachable(config.conditions) && k + 1 < |config.conditions|
    requires cal.Has(d - 1) && cal.Has(d + 2)
    ensures d * DAY <= ts.at < (d + 1) * DAY && IsSelected(Station(config, k), cal, ts)
    ensures Next(Station(config, k), ts.step) == Station(config, k + 1)
  {
    var s := Advance(config, k);
    IsSelectedAtStation(config, cal, k, d, s);
    MomentOnDay(config.conditions[k], d);
    ts := Timed(s, Moment(config.conditions[k], d));
  }

  /** On every day the job gets one queue further. */
  lemma {:induction false} Travel(config: Config, cal: Calendar, start: Time, k: nat) returns (steps: seq<Timed>)
    requires config.Accepted() && LastIsReachable(config.conditions) && k < |config.conditions|
    requires cal.Has(DateOf(start)) && cal.Has(DateOf(start) + 300)
    ensures SelectedRun(config.Empty(), cal, start, steps, Station(config, k))
    ensures EndOf(start, steps) < (DateOf(start) + 1 + k) * DAY
  {
    var ts: Timed;
    if k == 0 {
      ts := Depart(config, cal, start);
      RunSnoc(config.Empty(), cal, start, [], config.Empty(), ts);
      steps := [] + [ts];
    } else {
      var before := Travel(config, cal, start, k - 1);
      ts := StepOnDay(config, cal, k - 1, DateOf(start) + k);
      RunSnoc(config.Empty(), cal, start, before, Station(config, k - 1), ts);
      steps := before + [ts];
    }
  }

  // ---- The theorem

  lemma ReachedInactive(config: Config, cal: Calendar, start: Time, steps: seq<Timed>, qs: Queues)
    requires config.Accepted() && SelectedRun(config.Empty(), cal, start, steps, qs) && LoadingPanics(qs)
    ensures config.conditions[|config.conditions| - 1].Inactive? && LastIsReachable(config.conditions)
  {
    RunKeepsFits(config.conditions, config.Empty(), cal, start, steps, qs);
    var i :| 0 <= i < |qs.pipeline| && qs.pipeline[i].condition.Inactive? && qs.pipeline[i].entries != [];
    assert Fits(config.conditions, i, qs.pipeline[i].entries[0].job);
  }

  /**
   Whenever the queues are taken into use: loading them can come to panic if and only if the last queue
   is inactive, every queue before it has a window that is not empty or none and does not run jobs
   repeatedly, and a job's count is enough to get through them. A year must be left in the calendar.
   */
  lemma PanicExactlyWhenLastIsReachable(config: Config, cal: Calendar, start: Time)
    requires config.Accepted() && cal.Has(DateOf(start)) && cal.Has(DateOf(start) + 300)
    ensures CanPanic(config, cal, start)
       <==> config.conditions[|config.conditions| - 1].Inactive? && LastIsReachable(config.conditions)
  {
    var last := |config.conditions| - 1;
    if config.conditions[last].Inactive? && LastIsReachable(config.conditions) {
      var steps := Travel(config, cal, start, last);
      assert Station(config, last).pipeline[last].entries != [];
    }
    forall steps, qs | SelectedRun(config.Empty(), cal, start, steps, qs) && LoadingPanics(qs)
      ensures config.conditions[last].Inactive? && LastIsReachable(config.conditions)
    {
      ReachedInactive(config, cal, start, steps, qs);
    }
  }

  /** A window that ends when it starts, as accepted: nothing gets past it. */
  lemma EmptyWindowIsNeverPassed(cal: Calendar, start: Time, from: LocalNaiveTime, erroneous: bool, done: bool)
    requires from.Valid() && cal.Has(DateOf(start)) && cal.Has(DateOf(start) + 300)
    ensures
      var window := LocalNaiveTimeWindow(None, "", None, false, false, from, from);
      var config := Config([window, Inactive], erroneous, done);
      config.Accepted() && !CanPanic(config, cal, start)
  {
    var window := LocalNaiveTimeWindow(None, "", None, false, false, from, from);
    PanicExactlyWhenLastIsReachable(Config([window, Inactive], erroneous, done), cal, start);
    assert !Passes(window);
  }
}
