module JobFate {
  // One job from step to step: its counters, its boost and its place, and when it is reported done or failed.

  import opened Wrappers
  import opened TimeKeys
  import opened Jobs
  import opened RunQueue
  import opened Scheduler

  /** The status that running the job answers. */
  function Reported(qs: Queues, s: Step): JobStatus
    requires s.RunJob? && Enabled(qs, s)
  {
    PushSucceeds(qs, s);
    AfterRun(qs.pipeline[s.i].condition, AroundOf(qs, s.i), s.e, s.succeeded, s.wd, s.now).value.1
  }

  /** Where an entry can be. */
  datatype Place = Pipeline(k: nat) | Erroneous | Finished | Gone

  predicate HasEntry(es: Option<Entries>, key: TimeKey) {
    es.Some? && HasKey(es.value, key)
  }

  /** The key is that place's and no other queue's. */
  ghost predicate IsOnlyAt(qs: Queues, key: TimeKey, place: Place) {
    && (forall k :: 0 <= k < |qs.pipeline| ==> (HasKey(qs.pipeline[k].entries, key) <==> place == Pipeline(k)))
    && (HasEntry(qs.erroneous, key) <==> place == Erroneous)
    && (HasEntry(qs.done, key) <==> place == Finished)
  }

  ghost predicate IsEntry(qs: Queues, x: Entry) {
    || (exists k :: 0 <= k < |qs.pipeline| && x in qs.pipeline[k].entries)
    || (qs.erroneous.Some? && x in qs.erroneous.value)
    || (qs.done.Some? && x in qs.done.value)
  }

  // ---- Keys in queues

  lemma MemberHasKey(es: Entries, x: Entry)
    requires x in es
    ensures HasKey(es, x.key)
  {
    var k :| 0 <= k < |es| && es[k] == x;
  }

  lemma InsertHasKey(es: Entries, e: Entry, key: TimeKey)
    ensures HasKey(Insert(es, e), key) <==> HasKey(es, key) || e.key == key
  {
    var r := Insert(es, e);
    if HasKey(r, key) {
      var k :| 0 <= k < |r| && r[k].key == key;
      InsertKeeps(es, e, r[k]);
      if r[k] in es { MemberHasKey(es, r[k]); }
    }
    if HasKey(es, key) {
      var k :| 0 <= k < |es| && es[k].key == key;
      InsertKeeps(es, e, es[k]);
      MemberHasKey(r, es[k]);
    }
    InsertKeeps(es, e, e);
    MemberHasKey(r, e);
  }

  lemma {:induction false} RemoveHasOtherKey(es: Entries, key: TimeKey, other: TimeKey)
    requires other != key
    ensures HasKey(RemoveKey(es, key), other) <==> HasKey(es, other)
  {
    if es != [] {
      RemoveHasOtherKey(es[1..], key, other);
      HasKeyCons(es, other);
      if es[0].key != key {
        HasKeyCons(RemoveKey(es, key), other);
        assert RemoveKey(es, key)[1..] == RemoveKey(es[1..], key);
      }
    }
  }

  lemma HasKeyCons(es: Entries, key: TimeKey)
    requires es != []
    ensures HasKey(es, key) <==> es[0].key == key || HasKey(es[1..], key)
  {
    if HasKey(es[1..], key) {
      var k :| 0 <= k < |es[1..]| && es[1..][k].key == key;
      assert es[k + 1].key == key;
    }
    if HasKey(es, key) {
      var k :| 0 <= k < |es| && es[k].key == key;
      assert k > 0 ==> es[1..][k - 1].key == key;
    }
  }

  // ---- One step

  /**
   Where a job that is run belongs afterwards: where it was when it failed and may fail again, or when
   its queue repeats; in the next queue after a success that is not the last.
   */
  function PlaceAfter(qs: Queues, s: Step): Place
    requires s.RunJob? && s.i < |qs.pipeline|
  {
    var JobState(count, budget, _), condition := s.e.job.state, qs.pipeline[s.i].condition;
    var errors, finished := if qs.erroneous.Some? then Erroneous else Gone, if qs.done.Some? then Finished else Gone;
    if budget == 0 then errors
    else if count == 0 then finished
    else if !s.succeeded then (if budget == 1 then errors else Pipeline(s.i))
    else if count == 1 then finished
    else if condition.LocalNaiveTimeWindow? && condition.repeatedly then Pipeline(s.i)
    else if s.i + 1 < |qs.pipeline| then Pipeline(s.i + 1)
    else Gone
  }

  lemma PushedIsAt(qs: Queues, s: Step)
    requires s.RunJob? && Enabled(qs, s)
    ensures
      var v := VerdictOf(qs, s);
      PlaceAfter(qs, s) == match v.dest
                           case ToCurrent => Pipeline(s.i)
                           case ToNext => Pipeline(s.i + 1)
                           case ToErroneous => Erroneous
                           case ToDone => Finished
                           case Nowhere => Gone
  {
  }

  lemma AroundKeys(a: Around, dest: Destination, copy: Entry, old_: TimeKey)
    requires Push(a, dest, copy).Success? && copy.key != old_ && !HasKey(a.current, copy.key)
    requires !HasEntry(a.next, copy.key) && !HasEntry(a.erroneous, copy.key) && !HasEntry(a.done, copy.key)
    ensures
      var p := Push(a, dest, copy).value;
      && (HasKey(RemoveKey(p.current, old_), copy.key) <==> dest.ToCurrent?)
      && (HasEntry(p.next, copy.key) <==> dest.ToNext?)
      && (HasEntry(p.erroneous, copy.key) <==> dest.ToErroneous?)
      && (HasEntry(p.done, copy.key) <==> dest.ToDone?)
  {
    var p := Push(a, dest, copy).value;
    RemoveHasOtherKey(p.current, old_, copy.key);
    match dest
    case ToCurrent => InsertHasKey(a.current, copy, copy.key);
    case ToNext => InsertHasKey(a.next.value, copy, copy.key);
    case ToErroneous => InsertHasKey(a.erroneous.value, copy, copy.key);
    case ToDone => InsertHasKey(a.done.value, copy, copy.key);
    case Nowhere =>
  }

  /** After a step the new key is in that queue and in no other. */
  lemma RunJobIsAtItsPlace(qs: Queues, s: Step)
    requires s.RunJob? && Enabled(qs, s)
    ensures IsOnlyAt(Next(qs, s), s.now, PlaceAfter(qs, s))
  {
    PushSucceeds(qs, s);
    PushedIsAt(qs, s);
    MemberHasKey(qs.pipeline[s.i].entries, s.e);
    AroundKeys(AroundOf(qs, s.i), VerdictOf(qs, s).dest, Rescheduled(s.e, VerdictOf(qs, s), s.now), s.e.key);
  }

  /** A job that is inserted is as it was given, in the first queue and in no other. */
  lemma InsertedIsFirst(qs: Queues, job: Job, now: TimeKey)
    requires Enabled(qs, InsertJob(job, now))
    ensures
      var after := Next(qs, InsertJob(job, now));
      IsOnlyAt(after, now, Pipeline(0)) && after.pipeline != [] && Entry(now, job) in after.pipeline[0].entries
  {
    InsertHasKey(qs.pipeline[0].entries, Entry(now, job), now);
    InsertKeeps(qs.pipeline[0].entries, Entry(now, job), Entry(now, job));
  }

  /** What is answered: by the counters, the outcome and the queues that there are. */
  lemma ReportSaysWhy(qs: Queues, s: Step)
    requires s.RunJob? && Enabled(qs, s)
    ensures
      var JobState(count, budget, _) := s.e.job.state;
      match Reported(qs, s)
      case Error(retained) =>
        (budget == 0 || (budget == 1 && count > 0 && !s.succeeded)) && retained == qs.erroneous.Some?
      case Done(retained) => budget > 0 && (count == 0 || (count == 1 && s.succeeded)) && retained == qs.done.Some?
      case Active => Ran(s) && PlaceAfter(qs, s).Pipeline?
      case Dropped => Ran(s) && s.succeeded && count > 1 && s.i + 1 == |qs.pipeline|
  {
    PushedIsAt(qs, s);
  }

  /** Any entry under the new key is the copy. */
  lemma NewKeyIsCopy(qs: Queues, s: Step, x: Entry)
    requires s.RunJob? && Enabled(qs, s) && IsEntry(Next(qs, s), x) && x.key == s.now
    ensures x.job == CopyOf(qs, s)
  {
    PushSucceeds(qs, s);
    var a, v := AroundOf(qs, s.i), VerdictOf(qs, s);
    var copy := Rescheduled(s.e, v, s.now);
    var p := Push(a, v.dest, copy).value;
    OldIsNotNew(qs, x);
    PushedAnywhere(a, v.dest, copy, x);
    RemoveKeepsOthers(p.current, s.e.key, x);
  }

  lemma OldIsNotNew(qs: Queues, x: Entry)
    requires !KeyInUse(qs, x.key)
    ensures !IsEntry(qs, x)
  {
    if IsEntry(qs, x) {
      if k :| 0 <= k < |qs.pipeline| && x in qs.pipeline[k].entries {
        MemberHasKey(qs.pipeline[k].entries, x);
      } else if qs.erroneous.Some? && x in qs.erroneous.value {
        MemberHasKey(qs.erroneous.value, x);
      } else {
        MemberHasKey(qs.done.value, x);
      }
    }
  }

  lemma PushedAnywhere(a: Around, dest: Destination, copy: Entry, x: Entry)
    requires Push(a, dest, copy).Success?
    ensures
      var p := Push(a, dest, copy).value;
      && (x in p.current ==> x in a.current || x == copy)
      && (p.next.Some? && x in p.next.value ==> (a.next.Some? && x in a.next.value) || x == copy)
      && (p.erroneous.Some? && x in p.erroneous.value ==> (a.erroneous.Some? && x in a.erroneous.value) || x == copy)
      && (p.done.Some? && x in p.done.value ==> (a.done.Some? && x in a.done.value) || x == copy)
  {
    match dest
    case ToCurrent => InsertKeeps(a.current, copy, x);
    case ToNext => InsertKeeps(a.next.value, copy, x);
    case ToErroneous => InsertKeeps(a.erroneous.value, copy, x);
    case ToDone => InsertKeeps(a.done.value, copy, x);
    case Nowhere =>
  }

  /**
   Running a job takes exactly one off its error budget if it fails, and exactly one off its count if it
   succeeds; a job that cannot be run keeps both. The boost is spent, and the working directory is noted.
   */
  lemma RunSpendsOne(qs: Queues, s: Step, x: Entry)
    requires s.RunJob? && Enabled(qs, s) && IsEntry(Next(qs, s), x) && x.key == s.now
    ensures
      var before, after := s.e.job, x.job;
      && after.pub == before.pub && after.basePriority == before.basePriority && after.currentBoost == 0.0
      && after.state.lastWorkingDirectory == Some(s.wd)
      && after.state.remainingCount == before.state.remainingCount - (if Ran(s) && s.succeeded then 1 else 0)
      && after.state.remainingErrorBudget
         == before.state.remainingErrorBudget - (if Ran(s) && !s.succeeded then 1 else 0)
  {
    NewKeyIsCopy(qs, s, x);
  }

  // ---- Over runs: when a job is reported done or failed

  lemma {:induction false} PresentCounts(es: Entries, pub: JobPublic, x: Entry)
    requires x in es && x.job.pub == pub
    ensures Sum(es, CopiesOf(pub)) >= 1
  {
    if Sum(es, CopiesOf(pub)) == 0 {
      AbsentEntry(es, pub, x);
    }
  }

  lemma {:induction false} SoleInQueue(es: Entries, t: Tally, x: Entry)
    requires !t.Steps? && x in es && x.job.pub == t.pub && Sum(es, CopiesOf(t.pub)) <= 1
    ensures Sum(es, Allowance(t)) == Allowance(t)(x.job) && Sum(es, CopiesOf(t.pub)) == 1
  {
    if es[0] == x {
      AbsentInQueue(t, es[1..]);
    } else {
      PresentCounts(es[1..], t.pub, x);
      SoleInQueue(es[1..], t, x);
    }
  }

  lemma {:induction false} SoleInPipeline(pipeline: seq<Queue>, i: nat, t: Tally, x: Entry)
    requires !t.Steps? && i < |pipeline| && x in pipeline[i].entries && x.job.pub == t.pub
    requires PipelineSum(pipeline, CopiesOf(t.pub)) <= 1
    ensures PipelineSum(pipeline, Allowance(t)) == Allowance(t)(x.job) && PipelineSum(pipeline, CopiesOf(t.pub)) == 1
  {
    if i == 0 {
      SoleInQueue(pipeline[0].entries, t, x);
      AbsentHasNoAllowance(t, pipeline[1..]);
    } else {
      SoleInPipeline(pipeline[1..], i - 1, t, x);
      AbsentInQueue(t, pipeline[0].entries);
    }
  }

  /** At most one entry of the job is in the pipeline, with so much of its count and its error budget left. */
  ghost predicate Left(qs: Queues, pub: JobPublic, count: int, budget: int) {
    var copies := PipelineSum(qs.pipeline, CopiesOf(pub));
    && copies <= 1
    && (copies == 1 ==>
          && count > 0 && budget > 0
          && PipelineSum(qs.pipeline, Allowance(Successes(pub))) == count
          && PipelineSum(qs.pipeline, Allowance(Failures(pub))) == budget)
  }

  function One(b: bool): nat {
    if b then 1 else 0
  }

  lemma OthersKeepLeft(qs: Queues, s: Step, pub: JobPublic, count: int, budget: int)
    requires Enabled(qs, s) && AllSorted(qs) && Left(qs, pub, count, budget)
    requires if s.RunJob? then s.e.job.pub != pub else s.job.pub != pub
    ensures Left(Next(qs, s), pub, count, budget)
  {
    OthersKeepSum(qs, s, pub, CopiesOf(pub));
    OthersKeepSum(qs, s, pub, Allowance(Successes(pub)));
    OthersKeepSum(qs, s, pub, Allowance(Failures(pub)));
  }

  lemma OthersKeepSum(qs: Queues, s: Step, pub: JobPublic, f: Job -> nat)
    requires Enabled(qs, s) && AllSorted(qs) && forall job: Job :: job.pub != pub ==> f(job) == 0
    requires if s.RunJob? then s.e.job.pub != pub else s.job.pub != pub
    ensures PipelineSum(Next(qs, s).pipeline, f) == PipelineSum(qs.pipeline, f)
  {
    if s.RunJob? {
      RunJobSums(qs, s, f);
      RetainedIffPushed(qs, s);
    } else {
      SumInsert(qs.pipeline[0].entries, Entry(s.now, s.job), f);
      PipelineSumUpdate(qs.pipeline, 0, Insert(qs.pipeline[0].entries, Entry(s.now, s.job)), f);
    }
  }

  /** The entry that is run is the only one, and has what is left. */
  lemma OnlyEntryHasLeft(qs: Queues, s: Step, count: int, budget: int)
    requires s.RunJob? && Enabled(qs, s) && Left(qs, s.e.job.pub, count, budget)
    ensures PipelineSum(qs.pipeline, CopiesOf(s.e.job.pub)) == 1
    ensures Ran(s) && s.e.job.state.remainingCount == count && s.e.job.state.remainingErrorBudget == budget
  {
    SoleInPipeline(qs.pipeline, s.i, Successes(s.e.job.pub), s.e);
    SoleInPipeline(qs.pipeline, s.i, Failures(s.e.job.pub), s.e);
  }

  lemma CopyHasRest(qs: Queues, s: Step)
    requires Ran(s) && Enabled(qs, s)
    ensures
      var state, rest := s.e.job.state, CopyOf(qs, s).state;
      && rest.remainingCount == state.remainingCount - One(s.succeeded)
      && rest.remainingErrorBudget == state.remainingErrorBudget - One(!s.succeeded)
      && CopyOf(qs, s).pub == s.e.job.pub
      && (StaysInPipeline(VerdictOf(qs, s)) <==> Reported(qs, s).Active?)
      && (Reported(qs, s).Active? ==> rest.remainingCount > 0 && rest.remainingErrorBudget > 0)
  {
  }

  /** A run of the job takes off what it should, and the job leaves the pipeline unless it is active. */
  lemma OwnRunKeepsLeft(qs: Queues, s: Step, count: int, budget: int)
    requires s.RunJob? && Enabled(qs, s) && AllSorted(qs) && Left(qs, s.e.job.pub, count, budget)
    ensures Left(Next(qs, s), s.e.job.pub, count - One(s.succeeded), budget - One(!s.succeeded))
    ensures PipelineSum(Next(qs, s).pipeline, CopiesOf(s.e.job.pub)) == One(Reported(qs, s).Active?)
  {
    var pub := s.e.job.pub;
    OnlyEntryHasLeft(qs, s, count, budget);
    CopyHasRest(qs, s);
    RunJobSums(qs, s, CopiesOf(pub));
    RunJobSums(qs, s, Allowance(Successes(pub)));
    RunJobSums(qs, s, Allowance(Failures(pub)));
  }

  lemma StepKeepsLeft(qs: Queues, s: Step, pub: JobPublic, count: int, budget: int)
    requires Enabled(qs, s) && AllSorted(qs) && Left(qs, pub, count, budget) && (s.InsertJob? ==> s.job.pub != pub)
    ensures Left(Next(qs, s), pub, count - One(Counts(Successes(pub), s)), budget - One(Counts(Failures(pub), s)))
  {
    if s.RunJob? && s.e.job.pub == pub {
      OnlyEntryHasLeft(qs, s, count, budget);
      OwnRunKeepsLeft(qs, s, count, budget);
    } else {
      OthersKeepLeft(qs, s, pub, count, budget);
    }
  }

  lemma {:induction false} RunKeepsLeft(
      qs: Queues, steps: seq<Step>, qs': Queues, pub: JobPublic, count: int, budget: int)
    requires Run(qs, steps, qs') && AllSorted(qs) && Left(qs, pub, count, budget) && NeverInserted(steps, pub)
    ensures AllSorted(qs')
    ensures Left(qs', pub, count - Counted(Successes(pub), steps), budget - Counted(Failures(pub), steps))
    decreases |steps|
  {
    if steps != [] {
      StepKeepsLeft(qs, steps[0], pub, count, budget);
      StepKeepsSorted(qs, steps[0]);
      assert forall i :: 0 <= i < |steps| - 1 ==> steps[1..][i] == steps[i + 1];
      RunKeepsLeft(Next(qs, steps[0]), steps[1..], qs', pub,
                   count - One(Counts(Successes(pub), steps[0])), budget - One(Counts(Failures(pub), steps[0])));
    }
  }

  lemma InsertedIsLeft(qs: Queues, job: Job, now: TimeKey)
    requires AllSorted(qs) && Enabled(qs, InsertJob(job, now)) && PipelineSum(qs.pipeline, CopiesOf(job.pub)) == 0
    requires job.state.remainingCount > 0 && job.state.remainingErrorBudget > 0
    ensures Left(Next(qs, InsertJob(job, now)), job.pub, job.state.remainingCount, job.state.remainingErrorBudget)
  {
    InsertedSum(qs, job, now, CopiesOf(job.pub));
    InsertedSum(qs, job, now, Allowance(Successes(job.pub)));
    InsertedSum(qs, job, now, Allowance(Failures(job.pub)));
    AbsentHasNoAllowance(Successes(job.pub), qs.pipeline);
    AbsentHasNoAllowance(Failures(job.pub), qs.pipeline);
  }

  lemma InsertedSum(qs: Queues, job: Job, now: TimeKey, f: Job -> nat)
    requires Enabled(qs, InsertJob(job, now))
    ensures PipelineSum(Next(qs, InsertJob(job, now)).pipeline, f) == PipelineSum(qs.pipeline, f) + f(job)
  {
    SumInsert(qs.pipeline[0].entries, Entry(now, job), f);
    PipelineSumUpdate(qs.pipeline, 0, Insert(qs.pipeline[0].entries, Entry(now, job)), f);
  }

  lemma {:induction false} CountedSnoc(t: Tally, steps: seq<Step>, last: Step)
    ensures Counted(t, steps + [last]) == Counted(t, steps) + One(Counts(t, last))
  {
    if steps == [] {
      assert [] + [last] == [last] && [last][1..] == [];
    } else {
      assert (steps + [last])[1..] == steps[1..] + [last];
      CountedSnoc(t, steps[1..], last);
    }
  }

  /**
   A job that is inserted once with count `c` and error budget `e`, at any of its runs, whatever else goes
   on: it has what its runs before have left, it is reported done exactly when it has now succeeded `c`
   times, failed exactly when it has now failed `e` times, and no entry of it stays in the pipeline
   unless it is reported active.
   */
  lemma ReportedExactlyWhenSpent(qs: Queues, job: Job, now: TimeKey, steps: seq<Step>, qs': Queues, last: Step)
    requires AllSorted(qs) && Enabled(qs, InsertJob(job, now)) && PipelineSum(qs.pipeline, CopiesOf(job.pub)) == 0
    requires job.state.remainingCount > 0 && job.state.remainingErrorBudget > 0
    requires Run(Next(qs, InsertJob(job, now)), steps, qs') && NeverInserted(steps, job.pub)
    requires last.RunJob? && Enabled(qs', last) && last.e.job.pub == job.pub
    ensures
      var (c, e), state := (job.state.remainingCount, job.state.remainingErrorBudget), last.e.job.state;
      var succeeded, failed := Successes(job.pub), Failures(job.pub);
      && state.remainingCount == c - Counted(succeeded, steps)
      && state.remainingErrorBudget == e - Counted(failed, steps)
      && (Reported(qs', last).Done? <==> Counted(succeeded, steps + [last]) == c)
      && (Reported(qs', last).Error? <==> Counted(failed, steps + [last]) == e)
      && (PipelineSum(Next(qs', last).pipeline, CopiesOf(job.pub)) == 1 <==> Reported(qs', last).Active?)
  {
    var start := Next(qs, InsertJob(job, now));
    var pub, c, e := job.pub, job.state.remainingCount, job.state.remainingErrorBudget;
    InsertedIsLeft(qs, job, now);
    StepKeepsSorted(qs, InsertJob(job, now));
    RunKeepsLeft(start, steps, qs', pub, c, e);
    var count, budget := c - Counted(Successes(pub), steps), e - Counted(Failures(pub), steps);
    OnlyEntryHasLeft(qs', last, count, budget);
    OwnRunKeepsLeft(qs', last, count, budget);
    CountedSnoc(Successes(pub), steps, last);
    CountedSnoc(Failures(pub), steps, last);
    ReportSaysWhy(qs', last);
  }

  // ---- Over runs: the boost

  /** It is in the pipeline since the start, or since it was inserted. */
  ghost predicate IsOriginal(qs: Queues, steps: seq<Step>, x: Entry) {
    || (exists k :: 0 <= k < |qs.pipeline| && x in qs.pipeline[k].entries)
    || (exists k :: 0 <= k < |steps| && steps[k] == InsertJob(x.job, x.key))
  }

  lemma StepMakesNoBoost(qs: Queues, s: Step, k: nat, x: Entry)
    requires Enabled(qs, s) && k < |Next(qs, s).pipeline| && x in Next(qs, s).pipeline[k].entries
    requires x.job.currentBoost != 0.0
    ensures (k < |qs.pipeline| && x in qs.pipeline[k].entries) || s == InsertJob(x.job, x.key)
  {
    if s.RunJob? {
      EntryIsOldOrNew(qs, Attempt(s, false), k, x);
    } else {
      InsertKeeps(qs.pipeline[0].entries, Entry(s.now, s.job), x);
    }
  }

  /** Only a job that has not been run since it came into the pipeline still has a boost. */
  lemma {:induction false} BoostIsForOneRun(qs: Queues, steps: seq<Step>, qs': Queues, k: nat, x: Entry)
    requires Run(qs, steps, qs') && k < |qs'.pipeline| && x in qs'.pipeline[k].entries && x.job.currentBoost != 0.0
    ensures IsOriginal(qs, steps, x)
    decreases |steps|
  {
    if steps != [] {
      var mid := Next(qs, steps[0]);
      BoostIsForOneRun(mid, steps[1..], qs', k, x);
      if j :| 0 <= j < |steps[1..]| && steps[1..][j] == InsertJob(x.job, x.key) {
        assert steps[j + 1] == InsertJob(x.job, x.key);
      } else {
        var j :| 0 <= j < |mid.pipeline| && x in mid.pipeline[j].entries;
        StepMakesNoBoost(qs, steps[0], j, x);
      }
    }
  }
}
