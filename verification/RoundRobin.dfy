/** The jobs of a queue that runs them `repeatedly` alternate when all have the same priority. */
module RoundRobin {
  import opened Wrappers
  import opened TimeKeys
  import opened TimeRanges
  import opened Jobs
  import opened RunQueue
  import opened Scheduler
  import opened RunQueues

  // ---- One run is a rotation

  /** The queue as the sequence of its jobs, oldest entry first. */
  function Pubs(es: Entries): (r: seq<JobPublic>)
    ensures |r| == |es| && forall i :: 0 <= i < |es| ==> r[i] == es[i].job.pub
  {
    seq(|es|, i requires 0 <= i < |es| => es[i].job.pub)
  }

  predicate SamePriority(es: Entries) {
    forall i, j :: 0 <= i < |es| && 0 <= j < |es| ==> es[i].job.Priority() == es[j].job.Priority()
  }

  /** Of jobs with equal priority the oldest is selected. */
  lemma OldestIsSelected(q: Queue)
    requires !q.condition.Inactive? && q.entries != [] && SamePriority(q.entries)
    ensures Best(q, |q.entries|) == 0
  {
    var j := Best(q, |q.entries|);
    assert TotalPriority(q, 0) == TotalPriority(q, j);
  }

  /** A queue that repeats pushes its jobs to itself or to where jobs end up. */
  lemma RepeatingQueueKeepsJobs(
      condition: ScheduleCondition, a: Around, e: Entry, succeeded: bool, wd: WorkingDirectoryId, now: TimeKey)
    requires Repeats(condition) && After(now, a.current)
    requires AfterRun(condition, a, e, succeeded, wd, now).Success?
    ensures
      var v := Decide(condition, a, e.job.state, succeeded, wd);
      var (after, status) := AfterRun(condition, a, e, succeeded, wd, now).value;
      var copy := Rescheduled(e, v, now);
      && after.next == a.next
      && after.current == RemoveKey(if status.Active? then a.current + [copy] else a.current, e.key)
      && copy.job.pub == e.job.pub && (e.job.currentBoost == NORMAL ==> copy.job.Priority() == e.job.Priority())
  {
    var v := Decide(condition, a, e.job.state, succeeded, wd);
    InsertLast(a.current, Rescheduled(e, v, now));
  }

  /** Running the oldest job puts it at the end, or out of the queue, and moves no other job. */
  lemma RunRotates(condition: ScheduleCondition, a: Around, succeeded: bool, wd: WorkingDirectoryId, now: TimeKey)
    requires Repeats(condition) && a.current != [] && After(now, a.current)
    requires AfterRun(condition, a, a.current[0], succeeded, wd, now).Success?
    ensures
      var (after, status) := AfterRun(condition, a, a.current[0], succeeded, wd, now).value;
      && Pubs(after.current) == Pubs(a.current)[1..] + (if status.Active? then [a.current[0].job.pub] else [])
      && (SamePriority(a.current) && a.current[0].job.currentBoost == NORMAL ==> SamePriority(after.current))
      && after.next == a.next
  {
    var e := a.current[0];
    RepeatingQueueKeepsJobs(condition, a, e, succeeded, wd, now);
    var copy := Rescheduled(e, Decide(condition, a, e.job.state, succeeded, wd), now);
    RemoveFirst(a.current, [copy]);
    RemoveFirst(a.current, []);
    assert a.current + [] == a.current && a.current[1..] + [] == a.current[1..];
  }

  lemma RemoveFirst(es: Entries, more: Entries)
    requires es != []
    ensures RemoveKey(es + more, es[0].key) == es[1..] + more
  {
    assert (es + more)[1..] == es[1..] + more;
  }

  // ---- Many runs

  /** The oldest job is run, and stays or not; or a job arrives. */
  datatype Event = Ran(pub: JobPublic, stays: bool) | Arrived(pub: JobPublic)

  predicate Possible(q: seq<JobPublic>, e: Event) {
    match e
    case Ran(pub, _) => q != [] && q[0] == pub
    case Arrived(pub) => pub !in q
  }

  function Rotate(q: seq<JobPublic>, e: Event): seq<JobPublic>
    requires Possible(q, e)
  {
    match e
    case Ran(pub, stays) => q[1..] + if stays then [pub] else []
    case Arrived(pub) => q + [pub]
  }

  predicate History(q: seq<JobPublic>, events: seq<Event>, q': seq<JobPublic>)
    decreases |events|
  {
    if events == [] then q == q'
    else Possible(q, events[0]) && History(Rotate(q, events[0]), events[1..], q')
  }

  function RunsOf(events: seq<Event>, pub: JobPublic): nat {
    if events == [] then 0
    else (if events[0].Ran? && events[0].pub == pub then 1 else 0) + RunsOf(events[1..], pub)
  }

  predicate NoDuplicates(q: seq<JobPublic>) {
    forall i, j :: 0 <= i < j < |q| ==> q[i] != q[j]
  }

  /**
   Between two runs of a job each job that was waiting is run exactly once, however the runs end and
   whatever arrives; and a job that arrives meanwhile is not run yet.
   */
  lemma EachWaitingJobRunsOnce(q: seq<JobPublic>, x: JobPublic, events: seq<Event>, q': seq<JobPublic>, y: JobPublic)
    requires NoDuplicates(q) && q != [] && q[0] == x
    requires History(q, [Ran(x, true)] + events, q') && q' != [] && q'[0] == x
    requires RunsOf(events, x) == 0 && y != x
    ensures RunsOf(events, y) == if y in q then 1 else 0
  {
    assert ([Ran(x, true)] + events)[1..] == events;
    assert q[1..] + [x] == q[1..] + [x] + [];
    Window(q[1..], x, [], events, q', y);
  }

  /** The jobs before `x` are run, one after the other; those behind it wait. */
  lemma {:induction false} Window(
      ahead: seq<JobPublic>, x: JobPublic, behind: seq<JobPublic>, events: seq<Event>, q': seq<JobPublic>, y: JobPublic)
    requires NoDuplicates(ahead + [x] + behind) && History(ahead + [x] + behind, events, q')
    requires q' != [] && q'[0] == x && RunsOf(events, x) == 0 && y != x
    ensures RunsOf(events, y) == if y in ahead then 1 else 0
    decreases |events|
  {
    var q := ahead + [x] + behind;
    if events == [] {
      assert q[|ahead|] == x;
    } else {
      var e, rest := events[0], events[1..];
      match e {
        case Arrived(pub) =>
          assert Rotate(q, e) == ahead + [x] + (behind + [pub]);
          Window(ahead, x, behind + [pub], rest, q', y);
        case Ran(pub, stays) =>
          assert q[|ahead|] == x;
          assert q[0] == ahead[0] == pub;
          var behind' := behind + if stays then [pub] else [];
          assert Rotate(q, e) == ahead[1..] + [x] + behind';
          RotateKeepsDistinct(q, e);
          Window(ahead[1..], x, behind', rest, q', y);
          assert ahead == [pub] + ahead[1..];
          forall i | 0 <= i < |ahead[1..]|
            ensures ahead[1..][i] != pub
          {
            assert ahead[1..][i] == q[i + 1];
          }
      }
    }
  }

  lemma RotateKeepsDistinct(q: seq<JobPublic>, e: Event)
    requires NoDuplicates(q) && Possible(q, e)
    ensures NoDuplicates(Rotate(q, e))
  {
  }

  // ---- In the runs of the scheduler

  /** What a step of the scheduler is for queue `i`. */
  function EventsAt(i: nat, qs: Queues, s: Step): seq<Event>
    requires i < |qs.pipeline| && Enabled(qs, s)
  {
    if s.InsertJob? then
      if i == 0 then [Arrived(s.job.pub)] else []
    else if s.i == i then
      [Ran(s.e.job.pub, VerdictOf(qs, s).status.Active?)]
    else if s.i + 1 == i && VerdictOf(qs, s).dest.ToNext? then
      [Arrived(s.e.job.pub)]
    else
      []
  }

  /**
   The clock goes forward, queue `i` runs its oldest job, and no job arrives there that is there already.
   */
  predicate Orderly(i: nat, qs: Queues, s: Step) {
    && i < |qs.pipeline| && Enabled(qs, s)
    && (forall k :: 0 <= k < |qs.pipeline[i].entries| ==> Before(qs.pipeline[i].entries[k].key, s.now))
    && (s.RunJob? && s.i == i ==> s.e == qs.pipeline[i].entries[0])
    && (forall k :: 0 <= k < |EventsAt(i, qs, s)| && EventsAt(i, qs, s)[k].Arrived? ==>
         EventsAt(i, qs, s)[k].pub !in Pubs(qs.pipeline[i].entries))
  }

  predicate OrderlyRun(i: nat, qs: Queues, steps: seq<Step>, qs': Queues)
    decreases |steps|
  {
    if steps == [] then qs == qs'
    else Orderly(i, qs, steps[0]) && OrderlyRun(i, Next(qs, steps[0]), steps[1..], qs')
  }

  function EventsOf(i: nat, qs: Queues, steps: seq<Step>): seq<Event>
    decreases |steps|
  {
    if steps == [] || !Orderly(i, qs, steps[0]) then []
    else EventsAt(i, qs, steps[0]) + EventsOf(i, Next(qs, steps[0]), steps[1..])
  }

  lemma HistoryOfOne(q: seq<JobPublic>, e: Event)
    requires Possible(q, e)
    ensures History(q, [e], Rotate(q, e))
  {
  }

  lemma OwnStep(i: nat, qs: Queues, s: Step)
    requires Orderly(i, qs, s) && s.RunJob? && s.i == i && Repeats(qs.pipeline[i].condition)
    ensures
      var es, e := qs.pipeline[i].entries, Ran(s.e.job.pub, VerdictOf(qs, s).status.Active?);
      Possible(Pubs(es), e) && Pubs(Next(qs, s).pipeline[i].entries) == Rotate(Pubs(es), e)
  {
    var es := qs.pipeline[i].entries;
    PushSucceeds(qs, s);
    RunRotates(qs.pipeline[i].condition, AroundOf(qs, i), s.succeeded, s.wd, s.now);
    assert Pubs(es)[0] == s.e.job.pub;
  }

  lemma StepBefore(i: nat, qs: Queues, s: Step)
    requires Orderly(i, qs, s) && s.RunJob? && s.i + 1 == i
    ensures
      var es := qs.pipeline[i].entries;
      Pubs(Next(qs, s).pipeline[i].entries)
      == if VerdictOf(qs, s).dest.ToNext? then Pubs(es) + [s.e.job.pub] else Pubs(es)
  {
    PushSucceeds(qs, s);
    InsertLast(qs.pipeline[i].entries, Rescheduled(s.e, VerdictOf(qs, s), s.now));
  }

  lemma StepElsewhere(i: nat, qs: Queues, s: Step)
    requires i < |qs.pipeline| && Enabled(qs, s)
    ensures |Next(qs, s).pipeline| == |qs.pipeline|
    ensures Next(qs, s).pipeline[i].condition == qs.pipeline[i].condition
    ensures s.RunJob? && s.i != i && s.i + 1 != i ==> Next(qs, s).pipeline[i] == qs.pipeline[i]
    ensures s.InsertJob? && i != 0 ==> Next(qs, s).pipeline[i] == qs.pipeline[i]
  {
    if s.RunJob? {
      PushSucceeds(qs, s);
    }
  }

  lemma StepOnQueue(i: nat, qs: Queues, s: Step)
    requires Orderly(i, qs, s) && Repeats(qs.pipeline[i].condition)
    ensures History(Pubs(qs.pipeline[i].entries), EventsAt(i, qs, s), Pubs(Next(qs, s).pipeline[i].entries))
  {
    StepElsewhere(i, qs, s);
    var q, events := Pubs(qs.pipeline[i].entries), EventsAt(i, qs, s);
    if s.InsertJob? && i == 0 {
      InsertLast(qs.pipeline[i].entries, Entry(s.now, s.job));
    } else if s.RunJob? && s.i == i {
      OwnStep(i, qs, s);
    } else if s.RunJob? && s.i + 1 == i {
      StepBefore(i, qs, s);
    }
    if events != [] {
      assert events[0].Arrived? ==> events[0].pub !in q;
      HistoryOfOne(q, events[0]);
    }
  }

  lemma {:induction false} HistoryAppend(
      q: seq<JobPublic>, a: seq<Event>, q1: seq<JobPublic>, b: seq<Event>, q2: seq<JobPublic>)
    requires History(q, a, q1) && History(q1, b, q2)
    ensures History(q, a + b, q2)
    decreases |a|
  {
    if a == [] {
      assert a + b == b;
    } else {
      assert (a + b)[1..] == a[1..] + b;
      HistoryAppend(Rotate(q, a[0]), a[1..], q1, b, q2);
    }
  }

  lemma {:induction false} RunIsHistory(i: nat, qs: Queues, steps: seq<Step>, qs': Queues)
    requires OrderlyRun(i, qs, steps, qs') && i < |qs.pipeline| && Repeats(qs.pipeline[i].condition)
    ensures |qs'.pipeline| == |qs.pipeline|
    ensures History(Pubs(qs.pipeline[i].entries), EventsOf(i, qs, steps), Pubs(qs'.pipeline[i].entries))
    decreases |steps|
  {
    if steps != [] {
      var mid := Next(qs, steps[0]);
      StepElsewhere(i, qs, steps[0]);
      StepOnQueue(i, qs, steps[0]);
      RunIsHistory(i, mid, steps[1..], qs');
      HistoryAppend(Pubs(qs.pipeline[i].entries), EventsAt(i, qs, steps[0]), Pubs(mid.pipeline[i].entries),
                    EventsOf(i, mid, steps[1..]), Pubs(qs'.pipeline[i].entries));
    }
  }

  /** The oldest job of queue `i` is run at every step of the run: it is a round robin. */
  lemma OrderlyQueueIsRoundRobin(i: nat, qs: Queues, first: Step, steps: seq<Step>, qs': Queues, y: JobPublic)
    requires OrderlyRun(i, qs, [first] + steps, qs') && i < |qs.pipeline| && Repeats(qs.pipeline[i].condition)
    requires NoDuplicates(Pubs(qs.pipeline[i].entries))
    requires first.RunJob? && first.i == i && VerdictOf(qs, first).status.Active?
    requires i < |qs'.pipeline| && qs'.pipeline[i].entries != []
    requires qs'.pipeline[i].entries[0].job.pub == first.e.job.pub != y
    requires RunsOf(EventsOf(i, Next(qs, first), steps), first.e.job.pub) == 0
    ensures RunsOf(EventsOf(i, Next(qs, first), steps), y) == if y in Pubs(qs.pipeline[i].entries) then 1 else 0
  {
    var all := [first] + steps;
    assert all[1..] == steps;
    RunIsHistory(i, qs, all, qs');
    EachWaitingJobRunsOnce(Pubs(qs.pipeline[i].entries), first.e.job.pub, EventsOf(i, Next(qs, first), steps),
                           Pubs(qs'.pipeline[i].entries), y);
  }

  // ---- What makes the selection orderly

  /** Base priority `p`, no boost. */
  predicate Plain(job: Job, p: Priority) {
    job.basePriority == p && job.currentBoost == NORMAL
  }

  ghost predicate AllPlain(es: Entries, p: Priority) {
    forall x :: x in es ==> Plain(x.job, p)
  }

  /** The job that comes into queue `i` from outside it. */
  function ArrivalAt(i: nat, qs: Queues, s: Step): Option<Job>
    requires Enabled(qs, s)
  {
    match s
    case InsertJob(job, _) => if i == 0 then Some(job) else None
    case RunJob(k, e, _, _, now) =>
      if k + 1 == i && VerdictOf(qs, s).dest.ToNext? then Some(Rescheduled(e, VerdictOf(qs, s), now).job) else None
  }

  /** New keys are later than the old ones; an arriving job is as prioritized, and not there already. */
  predicate Fair(i: nat, p: Priority, qs: Queues, s: Step) {
    && i < |qs.pipeline| && Enabled(qs, s)
    && (forall k :: 0 <= k < |qs.pipeline[i].entries| ==> Before(qs.pipeline[i].entries[k].key, s.now))
    && (ArrivalAt(i, qs, s).Some? ==>
          var job := ArrivalAt(i, qs, s).value;
          Plain(job, p) && job.pub !in Pubs(qs.pipeline[i].entries))
  }

  /** A run of selected steps that are all fair to queue `i`. */
  predicate FairRun(i: nat, p: Priority, qs: Queues, cal: Calendar, from: Time, steps: seq<Timed>, qs': Queues)
    decreases |steps|
  {
    if steps == [] then qs == qs'
    else
      && from <= steps[0].at && IsSelected(qs, cal, steps[0]) && Fair(i, p, qs, steps[0].step)
      && FairRun(i, p, Next(qs, steps[0].step), cal, steps[0].at, steps[1..], qs')
  }

  /** Fair runs are runs of selected steps. */
  lemma {:induction false} FairRunIsSelected(
      i: nat, p: Priority, qs: Queues, cal: Calendar, from: Time, steps: seq<Timed>, qs': Queues)
    requires FairRun(i, p, qs, cal, from, steps, qs')
    ensures SelectedRun(qs, cal, from, steps, qs')
    decreases |steps|
  {
    if steps != [] {
      FairRunIsSelected(i, p, Next(qs, steps[0].step), cal, steps[0].at, steps[1..], qs');
    }
  }

  /** With equal priorities the selection takes the oldest job. */
  lemma FairIsOrderly(i: nat, p: Priority, qs: Queues, cal: Calendar, ts: Timed)
    requires IsSelected(qs, cal, ts) && Fair(i, p, qs, ts.step) && AllPlain(qs.pipeline[i].entries, p)
    ensures Orderly(i, qs, ts.step)
  {
    var s := ts.step;
    if s.RunJob? && s.i == i {
      SelectedIsBest(qs.pipeline, cal, ts.at, |qs.pipeline|);
      OldestIsSelected(qs.pipeline[i]);
    }
  }

  lemma InsertPlain(es: Entries, e: Entry, p: Priority)
    requires AllPlain(es, p) && Plain(e.job, p)
    ensures AllPlain(Insert(es, e), p)
  {
    forall x | x in Insert(es, e) { InsertKeeps(es, e, x); }
  }

  lemma RemovePlain(es: Entries, key: TimeKey, p: Priority)
    requires AllPlain(es, p)
    ensures AllPlain(RemoveKey(es, key), p)
  {
    forall x | x in RemoveKey(es, key) { RemoveKeepsOthers(es, key, x); }
  }

  /** What comes back into the queue has lost its boost and kept its base priority. */
  lemma OwnStepKeepsPlain(i: nat, p: Priority, qs: Queues, s: Step)
    requires i < |qs.pipeline| && Enabled(qs, s) && s.RunJob? && s.i == i && AllPlain(qs.pipeline[i].entries, p)
    ensures i < |Next(qs, s).pipeline| && AllPlain(Next(qs, s).pipeline[i].entries, p)
  {
    var es, copy := qs.pipeline[i].entries, Rescheduled(s.e, VerdictOf(qs, s), s.now);
    PushSucceeds(qs, s);
    InsertPlain(es, copy, p);
    RemovePlain(es, s.e.key, p);
    RemovePlain(Insert(es, copy), s.e.key, p);
  }

  lemma FairKeepsPlain(i: nat, p: Priority, qs: Queues, s: Step)
    requires Fair(i, p, qs, s) && AllPlain(qs.pipeline[i].entries, p)
    ensures i < |Next(qs, s).pipeline| && AllPlain(Next(qs, s).pipeline[i].entries, p)
  {
    var es := qs.pipeline[i].entries;
    StepElsewhere(i, qs, s);
    if s.RunJob? && s.i == i {
      OwnStepKeepsPlain(i, p, qs, s);
    } else if s.RunJob? {
      PushSucceeds(qs, s);
      if ArrivalAt(i, qs, s).Some? {
        InsertPlain(es, Rescheduled(s.e, VerdictOf(qs, s), s.now), p);
      }
    } else if i == 0 {
      InsertPlain(es, Entry(s.now, s.job), p);
    }
  }

  lemma {:induction false} FairRunIsOrderly(
      i: nat, p: Priority, qs: Queues, cal: Calendar, from: Time, steps: seq<Timed>, qs': Queues)
    requires FairRun(i, p, qs, cal, from, steps, qs') && i < |qs.pipeline| && AllPlain(qs.pipeline[i].entries, p)
    ensures OrderlyRun(i, qs, Untimed(steps), qs')
    decreases |steps|
  {
    if steps != [] {
      FairIsOrderly(i, p, qs, cal, steps[0]);
      FairKeepsPlain(i, p, qs, steps[0].step);
      FairRunIsOrderly(i, p, Next(qs, steps[0].step), cal, steps[0].at, steps[1..], qs');
      assert Untimed(steps)[1..] == Untimed(steps[1..]);
    }
  }

  /** Before the last step of a fair run the job that it runs is the oldest one. */
  lemma {:induction false} LastRunsOldest(
      i: nat, p: Priority, qs: Queues, cal: Calendar, from: Time, steps: seq<Timed>, last: Timed, qs': Queues)
    returns (mid: Queues)
    requires FairRun(i, p, qs, cal, from, steps + [last], qs')
    requires i < |qs.pipeline| && AllPlain(qs.pipeline[i].entries, p)
    requires last.step.RunJob? && last.step.i == i
    ensures FairRun(i, p, qs, cal, from, steps, mid)
    ensures i < |mid.pipeline| && mid.pipeline[i].entries != [] && mid.pipeline[i].entries[0] == last.step.e
    decreases |steps|
  {
    var all := steps + [last];
    if steps == [] {
      mid := qs;
      assert all[0] == last;
      FairIsOrderly(i, p, qs, cal, last);
    } else {
      assert all[0] == steps[0] && all[1..] == steps[1..] + [last];
      FairKeepsPlain(i, p, qs, steps[0].step);
      mid := LastRunsOldest(i, p, Next(qs, steps[0].step), cal, steps[0].at, steps[1..], last, qs');
    }
  }

  /** How often the job is run in queue `i`. */
  function RunsIn(i: nat, steps: seq<Step>, pub: JobPublic): nat {
    if steps == [] then 0
    else
      var s := steps[0];
      (if s.RunJob? && s.i == i && s.e.job.pub == pub then 1 else 0) + RunsIn(i, steps[1..], pub)
  }

  lemma {:induction false} RunsOfAppend(a: seq<Event>, b: seq<Event>, pub: JobPublic)
    ensures RunsOf(a + b, pub) == RunsOf(a, pub) + RunsOf(b, pub)
  {
    if a == [] {
      assert a + b == b;
    } else {
      assert (a + b)[1..] == a[1..] + b;
      RunsOfAppend(a[1..], b, pub);
    }
  }

  lemma {:induction false} RunsAreEvents(i: nat, qs: Queues, steps: seq<Step>, qs': Queues, pub: JobPublic)
    requires OrderlyRun(i, qs, steps, qs')
    ensures RunsOf(EventsOf(i, qs, steps), pub) == RunsIn(i, steps, pub)
    decreases |steps|
  {
    if steps != [] {
      var mid := Next(qs, steps[0]);
      RunsAreEvents(i, mid, steps[1..], qs', pub);
      RunsOfAppend(EventsAt(i, qs, steps[0]), EventsOf(i, mid, steps[1..]), pub);
    }
  }

  /**
   In a queue that runs jobs repeatedly, when those in it and those that arrive have the same base
   priority and no boost, and new keys are later: from a run of job `x` that keeps it in the queue to the
   next run of `x`, every other job that was waiting is run exactly once, and no other job of the queue
   is, with anything going on in the other queues. Each run is that of the job that is selected.
   */
  lemma QueueIsRoundRobin(
      i: nat, p: Priority, qs: Queues, cal: Calendar, from: Time,
      first: Timed, between: seq<Timed>, last: Timed, qs': Queues, y: JobPublic)
    requires FairRun(i, p, qs, cal, from, [first] + between + [last], qs')
    requires i < |qs.pipeline| && Repeats(qs.pipeline[i].condition)
    requires AllPlain(qs.pipeline[i].entries, p) && NoDuplicates(Pubs(qs.pipeline[i].entries))
    requires first.step.RunJob? && first.step.i == i && VerdictOf(qs, first.step).status.Active?
    requires last.step.RunJob? && last.step.i == i && last.step.e.job.pub == first.step.e.job.pub != y
    requires RunsIn(i, Untimed(between), first.step.e.job.pub) == 0
    ensures RunsIn(i, Untimed(between), y) == if y in Pubs(qs.pipeline[i].entries) then 1 else 0
  {
    var x := first.step.e.job.pub;
    var mid := LastRunsOldest(i, p, qs, cal, from, [first] + between, last, qs');
    FairRunIsOrderly(i, p, qs, cal, from, [first] + between, mid);
    assert Untimed([first] + between) == [first.step] + Untimed(between);
    assert ([first.step] + Untimed(between))[1..] == Untimed(between);
    RunsAreEvents(i, Next(qs, first.step), Untimed(between), mid, x);
    RunsAreEvents(i, Next(qs, first.step), Untimed(between), mid, y);
    OrderlyQueueIsRoundRobin(i, qs, first.step, Untimed(between), mid, y);
  }
}
