/** Runs of the whole pipeline: any job of any queue that is not inactive is run, or a job is inserted. */
module Scheduler {
  import opened Wrappers
  import opened TimeKeys
  import opened Jobs
  import opened RunQueue

  datatype Queue = Queue(condition: ScheduleCondition, entries: Entries)

  datatype Queues = Queues(pipeline: seq<Queue>, erroneous: Option<Entries>, done: Option<Entries>)

  function AroundOf(qs: Queues, i: nat): Around
    requires i < |qs.pipeline|
  {
    Around(qs.pipeline[i].entries,
           if i + 1 < |qs.pipeline| then Some(qs.pipeline[i + 1].entries) else None,
           qs.erroneous, qs.done)
  }

  function WithAround(qs: Queues, i: nat, a: Around): Queues
    requires i < |qs.pipeline|
  {
    var here := qs.pipeline[i := qs.pipeline[i].(entries := a.current)];
    Queues(if i + 1 < |here| && a.next.Some? then here[i + 1 := here[i + 1].(entries := a.next.value)] else here,
           a.erroneous, a.done)
  }

  datatype Step =
    | RunJob(i: nat, e: Entry, succeeded: bool, wd: WorkingDirectoryId, now: TimeKey)
    | InsertJob(job: Job, now: TimeKey)

  predicate KeyInUse(qs: Queues, key: TimeKey) {
    || (exists i :: 0 <= i < |qs.pipeline| && HasKey(qs.pipeline[i].entries, key))
    || (qs.erroneous.Some? && HasKey(qs.erroneous.value, key))
    || (qs.done.Some? && HasKey(qs.done.value, key))
  }

  /** The clock, process id and counter of a new key are not those of any other key. */
  predicate Enabled(qs: Queues, s: Step) {
    && !KeyInUse(qs, s.now)
    && match s
       case RunJob(i, e, _, _, _) =>
         i < |qs.pipeline| && e in qs.pipeline[i].entries && !qs.pipeline[i].condition.Inactive?
       case InsertJob(_, _) => |qs.pipeline| > 0
  }

  function VerdictOf(qs: Queues, s: Step): Verdict
    requires s.RunJob? && s.i < |qs.pipeline|
  {
    Decide(qs.pipeline[s.i].condition, AroundOf(qs, s.i), s.e.job.state, s.succeeded, s.wd)
  }

  /** What a crash after the push and before the deletion leaves. */
  function Pushed(qs: Queues, s: Step): Queues
    requires s.RunJob? && s.i < |qs.pipeline|
  {
    var pushed := AfterPush(qs.pipeline[s.i].condition, AroundOf(qs, s.i), s.e, s.succeeded, s.wd, s.now);
    if pushed.Success? then WithAround(qs, s.i, pushed.value) else qs
  }

  function Next(qs: Queues, s: Step): Queues
    requires Enabled(qs, s)
  {
    match s
    case RunJob(i, e, succeeded, wd, now) =>
      var after := AfterRun(qs.pipeline[i].condition, AroundOf(qs, i), e, succeeded, wd, now);
      if after.Success? then WithAround(qs, i, after.value.0) else qs
    case InsertJob(job, now) =>
      qs.(pipeline := qs.pipeline[0 := qs.pipeline[0].(entries := Insert(qs.pipeline[0].entries, Entry(now, job)))])
  }

  predicate Run(qs: Queues, steps: seq<Step>, qs': Queues)
    decreases |steps|
  {
    if steps == [] then qs == qs'
    else Enabled(qs, steps[0]) && Run(Next(qs, steps[0]), steps[1..], qs')
  }

  ghost predicate AllSorted(qs: Queues) {
    && (forall i :: 0 <= i < |qs.pipeline| ==> Sorted(qs.pipeline[i].entries))
    && (qs.erroneous.Some? ==> Sorted(qs.erroneous.value))
    && (qs.done.Some? ==> Sorted(qs.done.value))
  }

  // ---- Sums over entries

  function Sum(es: Entries, f: Job -> nat): nat {
    if es == [] then 0 else f(es[0].job) + Sum(es[1..], f)
  }

  function SumOpt(es: Option<Entries>, f: Job -> nat): nat {
    if es.None? then 0 else Sum(es.value, f)
  }

  function PipelineSum(pipeline: seq<Queue>, f: Job -> nat): nat {
    if pipeline == [] then 0 else Sum(pipeline[0].entries, f) + PipelineSum(pipeline[1..], f)
  }

  lemma {:induction false} SumInsert(es: Entries, e: Entry, f: Job -> nat)
    ensures Sum(Insert(es, e), f) == Sum(es, f) + f(e.job)
  {
    if !(es == [] || Before(e.key, es[0].key)) {
      SumInsert(es[1..], e, f);
      assert ([es[0]] + Insert(es[1..], e))[1..] == Insert(es[1..], e);
    } else {
      assert ([e] + es)[1..] == es;
    }
  }

  lemma {:induction false} SumRemove(es: Entries, e: Entry, f: Job -> nat)
    requires Sorted(es) && e in es
    ensures Sum(RemoveKey(es, e.key), f) + f(e.job) == Sum(es, f)
  {
    if es[0].key != e.key {
      assert e in es[1..];
      assert forall k :: 0 <= k < |es| - 1 ==> es[1..][k] == es[k + 1];
      SumRemove(es[1..], e, f);
      assert ([es[0]] + RemoveKey(es[1..], e.key))[1..] == RemoveKey(es[1..], e.key);
    } else {
      var k :| 0 <= k < |es| && es[k] == e;
      assert k > 0 ==> Before(es[0].key, es[k].key);
    }
  }

  lemma {:induction false} PipelineSumUpdate(pipeline: seq<Queue>, i: nat, es: Entries, f: Job -> nat)
    requires i < |pipeline|
    ensures PipelineSum(pipeline[i := pipeline[i].(entries := es)], f) + Sum(pipeline[i].entries, f)
         == PipelineSum(pipeline, f) + Sum(es, f)
  {
    var updated := pipeline[i := pipeline[i].(entries := es)];
    if i > 0 {
      PipelineSumUpdate(pipeline[1..], i - 1, es, f);
      assert updated[1..] == pipeline[1..][i - 1 := pipeline[i].(entries := es)];
    } else {
      assert updated[1..] == pipeline[1..];
    }
  }

  lemma WithAroundSum(qs: Queues, i: nat, a: Around, f: Job -> nat)
    requires i < |qs.pipeline| && (a.next.Some? <==> i + 1 < |qs.pipeline|)
    ensures
      var old_ := AroundOf(qs, i);
      PipelineSum(WithAround(qs, i, a).pipeline, f) + Sum(old_.current, f) + SumOpt(old_.next, f)
      == PipelineSum(qs.pipeline, f) + Sum(a.current, f) + SumOpt(a.next, f)
  {
    PipelineSumUpdate(qs.pipeline, i, a.current, f);
    var here := qs.pipeline[i := qs.pipeline[i].(entries := a.current)];
    if a.next.Some? {
      PipelineSumUpdate(here, i + 1, a.next.value, f);
    }
  }

  predicate StaysInPipeline(v: Verdict) {
    v.dest.ToCurrent? || v.dest.ToNext?
  }

  /** No push fails. */
  lemma PushSucceeds(qs: Queues, s: Step)
    requires s.RunJob? && Enabled(qs, s)
    ensures AfterPush(qs.pipeline[s.i].condition, AroundOf(qs, s.i), s.e, s.succeeded, s.wd, s.now).Success?
  {
  }

  lemma {:induction false} InsertKeeps(es: Entries, e: Entry, x: Entry)
    ensures x in Insert(es, e) <==> x in es || x == e
  {
    if !(es == [] || Before(e.key, es[0].key)) {
      InsertKeeps(es[1..], e, x);
    }
  }

  /** Pushing adds the copy, deleting takes away the old entry. */
  lemma AroundSums(a: Around, dest: Destination, copy: Entry, e: Entry, f: Job -> nat)
    requires Sorted(a.current) && e in a.current && Push(a, dest, copy).Success?
    ensures
      var pushed := Push(a, dest, copy).value;
      && Sum(pushed.current, f) + SumOpt(pushed.next, f)
         == Sum(a.current, f) + SumOpt(a.next, f) + (if dest.ToCurrent? || dest.ToNext? then f(copy.job) else 0)
      && Sum(RemoveKey(pushed.current, e.key), f) + f(e.job) == Sum(pushed.current, f)
      && SumOpt(pushed.erroneous, f) == SumOpt(a.erroneous, f) + (if dest.ToErroneous? then f(copy.job) else 0)
      && SumOpt(pushed.done, f) == SumOpt(a.done, f) + (if dest.ToDone? then f(copy.job) else 0)
  {
    var pushed := Push(a, dest, copy).value;
    match dest {
      case ToCurrent =>
        SumInsert(a.current, copy, f);
        var _ := InsertAt(a.current, copy);
        InsertKeeps(a.current, copy, e);
      case ToNext => SumInsert(a.next.value, copy, f);
      case ToErroneous => SumInsert(a.erroneous.value, copy, f);
      case ToDone => SumInsert(a.done.value, copy, f);
      case Nowhere =>
    }
    SumRemove(pushed.current, e, f);
  }

  function CopyOf(qs: Queues, s: Step): Job
    requires s.RunJob? && s.i < |qs.pipeline|
  {
    Rescheduled(s.e, VerdictOf(qs, s), s.now).job
  }

  /** What a step does to a sum over the jobs in the pipeline, and over those in the two other queues. */
  lemma RunJobSums(qs: Queues, s: Step, f: Job -> nat)
    requires s.RunJob? && Enabled(qs, s) && AllSorted(qs)
    ensures
      var v, mid, after, gain := VerdictOf(qs, s), Pushed(qs, s), Next(qs, s), f(CopyOf(qs, s));
      && PipelineSum(mid.pipeline, f) == PipelineSum(qs.pipeline, f) + (if StaysInPipeline(v) then gain else 0)
      && PipelineSum(after.pipeline, f) + f(s.e.job) == PipelineSum(mid.pipeline, f)
      && SumOpt(mid.erroneous, f) == SumOpt(qs.erroneous, f) + (if v.dest.ToErroneous? then gain else 0)
      && SumOpt(mid.done, f) == SumOpt(qs.done, f) + (if v.dest.ToDone? then gain else 0)
      && after.erroneous == mid.erroneous && after.done == mid.done
  {
    PushSucceeds(qs, s);
    var a, v := AroundOf(qs, s.i), VerdictOf(qs, s);
    var copy := Rescheduled(s.e, v, s.now);
    AroundSums(a, v.dest, copy, s.e, f);
    var pushed := Push(a, v.dest, copy).value;
    WithAroundSum(qs, s.i, pushed, f);
    WithAroundSum(qs, s.i, pushed.(current := RemoveKey(pushed.current, s.e.key)), f);
  }

  predicate AroundHas(a: Around, dest: Destination, copy: Entry) {
    match dest
    case ToCurrent => copy in a.current
    case ToNext => a.next.Some? && copy in a.next.value
    case ToErroneous => a.erroneous.Some? && copy in a.erroneous.value
    case ToDone => a.done.Some? && copy in a.done.value
    case Nowhere => true
  }

  ghost predicate AroundSorted(a: Around) {
    && Sorted(a.current) && (a.next.Some? ==> Sorted(a.next.value))
    && (a.erroneous.Some? ==> Sorted(a.erroneous.value)) && (a.done.Some? ==> Sorted(a.done.value))
  }

  lemma InsertIntoSorted(es: Entries, e: Entry)
    requires Sorted(es) && !HasKey(es, e.key)
    ensures Sorted(Insert(es, e)) && e in Insert(es, e) && forall x :: x in es ==> x in Insert(es, e)
  {
    var _ := InsertAt(es, e);
    forall x { InsertKeeps(es, e, x); }
  }

  /** The push puts the copy in its place, and leaves the old entry where it was. */
  lemma PushIntoSorted(a: Around, dest: Destination, copy: Entry)
    requires AroundSorted(a) && Push(a, dest, copy).Success?
    ensures
      var p := Push(a, dest, copy).value;
      AroundSorted(p) && AroundHas(p, dest, copy) && forall x :: x in a.current ==> x in p.current
  {
    match dest
    case ToCurrent => InsertIntoSorted(a.current, copy);
    case ToNext => InsertIntoSorted(a.next.value, copy);
    case ToErroneous => InsertIntoSorted(a.erroneous.value, copy);
    case ToDone => InsertIntoSorted(a.done.value, copy);
    case Nowhere =>
  }

  lemma RemovedIsGone(es: Entries, e: Entry)
    requires Sorted(es) && e in es
    ensures Sorted(RemoveKey(es, e.key)) && !HasKey(RemoveKey(es, e.key), e.key)
    ensures forall x :: x in es && x.key != e.key ==> x in RemoveKey(es, e.key)
  {
    var k :| 0 <= k < |es| && es[k] == e;
    RemoveAt(es, k);
    var r := es[..k] + es[k + 1..];
    forall j | 0 <= j < |r|
      ensures r[j].key != e.key
    {
      assert r[j] == if j < k then es[j] else es[j + 1];
    }
    OthersStay(es, k);
  }

  lemma OthersStay(es: Entries, k: nat)
    requires k < |es|
    ensures forall x :: x in es && x.key != es[k].key ==> x in es[..k] + es[k + 1..]
  {
    var r := es[..k] + es[k + 1..];
    forall x | x in es && x.key != es[k].key
      ensures x in r
    {
      var j :| 0 <= j < |es| && es[j] == x;
      assert r[if j < k then j else j - 1] == x;
    }
  }

  lemma SortedAround(qs: Queues, i: nat, a: Around)
    requires i < |qs.pipeline| && AllSorted(qs)
    ensures AroundSorted(AroundOf(qs, i))
    ensures AroundSorted(a) && (a.next.Some? <==> i + 1 < |qs.pipeline|) ==> AllSorted(WithAround(qs, i, a))
  {
  }

  /** The queues around the job, after the push and after the deletion. */
  lemma RunJobAround(qs: Queues, s: Step) returns (mid: Around, after: Around)
    requires s.RunJob? && Enabled(qs, s) && AllSorted(qs)
    ensures Pushed(qs, s) == WithAround(qs, s.i, mid) && Next(qs, s) == WithAround(qs, s.i, after)
    ensures mid.next.Some? <==> s.i + 1 < |qs.pipeline|
    ensures AroundSorted(mid) && AroundSorted(after) && after == mid.(current := RemoveKey(mid.current, s.e.key))
    ensures AroundHas(mid, VerdictOf(qs, s).dest, Rescheduled(s.e, VerdictOf(qs, s), s.now))
    ensures s.e in mid.current && !HasKey(after.current, s.e.key)
  {
    PushSucceeds(qs, s);
    var a, v := AroundOf(qs, s.i), VerdictOf(qs, s);
    SortedAround(qs, s.i, a);
    PushIntoSorted(a, v.dest, Rescheduled(s.e, v, s.now));
    mid := Push(a, v.dest, Rescheduled(s.e, v, s.now)).value;
    RemovedIsGone(mid.current, s.e);
    after := mid.(current := RemoveKey(mid.current, s.e.key));
  }

  lemma StepKeepsSorted(qs: Queues, s: Step)
    requires Enabled(qs, s) && AllSorted(qs)
    ensures AllSorted(Next(qs, s))
    ensures s.RunJob? ==> AllSorted(Pushed(qs, s))
  {
    if s.RunJob? {
      var mid, after := RunJobAround(qs, s);
      SortedAround(qs, s.i, mid);
      SortedAround(qs, s.i, after);
    } else {
      InsertIntoSorted(qs.pipeline[0].entries, Entry(s.now, s.job));
    }
  }

  lemma {:induction false} RunKeepsSorted(qs: Queues, steps: seq<Step>, qs': Queues)
    requires AllSorted(qs) && Run(qs, steps, qs')
    ensures AllSorted(qs')
    decreases |steps|
  {
    if steps != [] {
      StepKeepsSorted(qs, steps[0]);
      RunKeepsSorted(Next(qs, steps[0]), steps[1..], qs');
    }
  }

  // ---- Conservation

  function CopiesOf(pub: JobPublic): Job -> nat {
    (job: Job) => if job.pub == pub then 1 else 0
  }

  /** How many entries of all queues together carry the job. */
  function Copies(qs: Queues, pub: JobPublic): nat {
    var f := CopiesOf(pub);
    PipelineSum(qs.pipeline, f) + SumOpt(qs.erroneous, f) + SumOpt(qs.done, f)
  }

  predicate Retained(status: JobStatus) {
    status.Active? || status == Done(true) || status == Error(true)
  }

  lemma RetainedIffPushed(qs: Queues, s: Step)
    requires s.RunJob? && Enabled(qs, s)
    ensures Retained(VerdictOf(qs, s).status) <==> !VerdictOf(qs, s).dest.Nowhere?
    ensures CopyOf(qs, s).pub == s.e.job.pub
  {
  }

  /**
   A completed step neither loses nor duplicates any job, unless its status says that the job is gone;
   and between the push and the deletion, where a crash can stop it, no job is missing.
   */
  lemma JobsAreConserved(qs: Queues, s: Step, pub: JobPublic)
    requires s.RunJob? && Enabled(qs, s) && AllSorted(qs)
    ensures
      var gone := if s.e.job.pub == pub && !Retained(VerdictOf(qs, s).status) then 1 else 0;
      && Copies(Next(qs, s), pub) + gone == Copies(qs, pub)
      && Copies(qs, pub) <= Copies(Pushed(qs, s), pub)
      && Copies(Pushed(qs, s), pub) <= Copies(qs, pub) + (if s.e.job.pub == pub then 1 else 0)
  {
    RetainedIffPushed(qs, s);
    RunJobSums(qs, s, CopiesOf(pub));
  }

  /** A step, and whether a crash stops it between the push and the deletion. */
  datatype Attempt = Attempt(step: Step, crashes: bool)

  function NextOf(qs: Queues, a: Attempt): Queues
    requires Enabled(qs, a.step)
  {
    if a.crashes && a.step.RunJob? then Pushed(qs, a.step) else Next(qs, a.step)
  }

  predicate CrashyRun(qs: Queues, attempts: seq<Attempt>, qs': Queues)
    decreases |attempts|
  {
    if attempts == [] then qs == qs'
    else Enabled(qs, attempts[0].step) && CrashyRun(NextOf(qs, attempts[0]), attempts[1..], qs')
  }

  /** How often the job was reported gone, was inserted, and may have been duplicated by a crash. */
  datatype Ledger = Ledger(gone: nat, inserted: nat, crashed: nat)

  function Account(qs: Queues, attempts: seq<Attempt>, pub: JobPublic): Ledger
    decreases |attempts|
  {
    if attempts == [] || !Enabled(qs, attempts[0].step) then Ledger(0, 0, 0)
    else
      var a, rest := attempts[0], Account(NextOf(qs, attempts[0]), attempts[1..], pub);
      if a.step.InsertJob? then
        if a.step.job.pub == pub then rest.(inserted := rest.inserted + 1) else rest
      else if a.step.e.job.pub != pub then rest
      else if a.crashes then rest.(crashed := rest.crashed + 1)
      else if Retained(VerdictOf(qs, a.step).status) then rest
      else rest.(gone := rest.gone + 1)
  }

  /**
   Over any run with any crashes no job is lost: its copies are those at the start and those inserted,
   less those reported gone, and at most one more for each crash.
   */
  lemma {:induction false} NothingIsLostInCrashes(qs: Queues, attempts: seq<Attempt>, qs': Queues, pub: JobPublic)
    requires AllSorted(qs) && CrashyRun(qs, attempts, qs')
    ensures
      var l := Account(qs, attempts, pub);
      && Copies(qs, pub) + l.inserted <= Copies(qs', pub) + l.gone
      && Copies(qs', pub) + l.gone <= Copies(qs, pub) + l.inserted + l.crashed
    decreases |attempts|
  {
    if attempts != [] {
      var a := attempts[0];
      AttemptAccounts(qs, a, pub);
      StepKeepsSorted(qs, a.step);
      NothingIsLostInCrashes(NextOf(qs, a), attempts[1..], qs', pub);
    }
  }

  lemma AttemptAccounts(qs: Queues, a: Attempt, pub: JobPublic)
    requires AllSorted(qs) && Enabled(qs, a.step)
    ensures
      var now := Copies(NextOf(qs, a), pub);
      if a.step.InsertJob? then
        now == Copies(qs, pub) + (if a.step.job.pub == pub then 1 else 0)
      else if a.crashes then
        Copies(qs, pub) <= now <= Copies(qs, pub) + (if a.step.e.job.pub == pub then 1 else 0)
      else
        now + (if a.step.e.job.pub == pub && !Retained(VerdictOf(qs, a.step).status) then 1 else 0) == Copies(qs, pub)
  {
    if a.step.RunJob? {
      JobsAreConserved(qs, a.step, pub);
    } else {
      var e := Entry(a.step.now, a.step.job);
      SumInsert(qs.pipeline[0].entries, e, CopiesOf(pub));
      PipelineSumUpdate(qs.pipeline, 0, Insert(qs.pipeline[0].entries, e), CopiesOf(pub));
    }
  }

  // ---- Where a job is after a step

  /** The copy arrives at its destination, and the old entry is gone. */
  lemma CopyArrives(qs: Queues, s: Step)
    requires s.RunJob? && Enabled(qs, s) && AllSorted(qs)
    ensures |Next(qs, s).pipeline| == |qs.pipeline|
    ensures Next(qs, s).erroneous.Some? <==> qs.erroneous.Some?
    ensures Next(qs, s).done.Some? <==> qs.done.Some?
    ensures !HasKey(Next(qs, s).pipeline[s.i].entries, s.e.key)
    ensures AroundHas(AroundOf(Next(qs, s), s.i), VerdictOf(qs, s).dest, Entry(s.now, CopyOf(qs, s)))
  {
    var mid, after := RunJobAround(qs, s);
    assert AroundOf(WithAround(qs, s.i, after), s.i) == after;
    RemovedIsGone(mid.current, s.e);
    var copy := Rescheduled(s.e, VerdictOf(qs, s), s.now);
    assert copy.key != s.e.key by {
      assert HasKey(qs.pipeline[s.i].entries, s.e.key);
    }
    assert copy in mid.current ==> copy in after.current;
  }

  lemma VerdictFacts(qs: Queues, s: Step)
    requires s.RunJob? && Enabled(qs, s)
    ensures
      var v := VerdictOf(qs, s);
      && CopyOf(qs, s).state == v.state
      && match v.status
         case Active => v.state.remainingCount > 0 && v.state.remainingErrorBudget > 0
           && (v.dest.ToCurrent? || (v.dest.ToNext? && s.i + 1 < |qs.pipeline|))
         case Done(r) => v.state.remainingCount == 0 && r == qs.done.Some? && (r <==> v.dest.ToDone?)
         case Error(r) => v.state.remainingErrorBudget == 0 && r == qs.erroneous.Some? && (r <==> v.dest.ToErroneous?)
         case Dropped => v.state.remainingCount > 0 && v.state.remainingErrorBudget > 0 && s.i + 1 == |qs.pipeline|
  {
  }

  /** The status tells in which queue the job is now, and in what state. */
  lemma StatusTellsWhere(qs: Queues, s: Step)
    requires s.RunJob? && Enabled(qs, s) && AllSorted(qs)
    ensures !HasKey(Next(qs, s).pipeline[s.i].entries, s.e.key)
    ensures
      var status, job, after := VerdictOf(qs, s).status, CopyOf(qs, s), Next(qs, s);
      match status
      case Active =>
        && job.state.remainingCount > 0 && job.state.remainingErrorBudget > 0
        && (|| Entry(s.now, job) in after.pipeline[s.i].entries
            || (s.i + 1 < |after.pipeline| && Entry(s.now, job) in after.pipeline[s.i + 1].entries))
      case Done(retained) =>
        && job.state.remainingCount == 0 && (retained <==> after.done.Some?)
        && (retained ==> Entry(s.now, job) in after.done.value)
      case Error(retained) =>
        && job.state.remainingErrorBudget == 0 && (retained <==> after.erroneous.Some?)
        && (retained ==> Entry(s.now, job) in after.erroneous.value)
      case Dropped =>
        s.i + 1 == |qs.pipeline| && job.state.remainingCount > 0 && job.state.remainingErrorBudget > 0
  {
    CopyArrives(qs, s);
    VerdictFacts(qs, s);
  }

  // ---- How often jobs are run

  /** What is counted: runs of one job with a certain outcome, all its runs, or all steps. */
  datatype Tally = Successes(pub: JobPublic) | Failures(pub: JobPublic) | Runs(pub: JobPublic) | Steps

  /** How much a job in the pipeline can still contribute to a tally. */
  function Allowance(t: Tally): Job -> nat {
    (job: Job) =>
      var c, e := job.state.remainingCount, job.state.remainingErrorBudget;
      match t
      case Successes(pub) => if job.pub == pub then c else 0
      case Failures(pub) => if job.pub == pub then e else 0
      case Runs(pub) => if job.pub == pub && c > 0 && e > 0 then c + e - 1 else 0
      case Steps => c + e + 1
  }

  predicate Ran(s: Step) {
    s.RunJob? && s.e.job.state.remainingCount > 0 && s.e.job.state.remainingErrorBudget > 0
  }

  predicate Counts(t: Tally, s: Step) {
    match t
    case Successes(pub) => Ran(s) && s.e.job.pub == pub && s.succeeded
    case Failures(pub) => Ran(s) && s.e.job.pub == pub && !s.succeeded
    case Runs(pub) => Ran(s) && s.e.job.pub == pub
    case Steps => s.RunJob?
  }

  function Counted(t: Tally, steps: seq<Step>): nat {
    if steps == [] then 0 else (if Counts(t, steps[0]) then 1 else 0) + Counted(t, steps[1..])
  }

  /** What inserted jobs bring along. */
  function Brought(t: Tally, steps: seq<Step>): nat {
    if steps == [] then 0
    else (if steps[0].InsertJob? then Allowance(t)(steps[0].job) else 0) + Brought(t, steps[1..])
  }

  /** The copy that stays in the pipeline has given up what the step counted. */
  lemma CopyHasLess(t: Tally, qs: Queues, s: Step)
    requires s.RunJob? && Enabled(qs, s)
    ensures
      var kept := if StaysInPipeline(VerdictOf(qs, s)) then Allowance(t)(CopyOf(qs, s)) else 0;
      kept + (if Counts(t, s) then 1 else 0) <= Allowance(t)(s.e.job)
  {
  }

  lemma StepPays(t: Tally, qs: Queues, s: Step)
    requires Enabled(qs, s) && AllSorted(qs)
    ensures
      PipelineSum(Next(qs, s).pipeline, Allowance(t)) + (if Counts(t, s) then 1 else 0)
      <= PipelineSum(qs.pipeline, Allowance(t)) + (if s.InsertJob? then Allowance(t)(s.job) else 0)
  {
    if s.RunJob? {
      RunJobSums(qs, s, Allowance(t));
      CopyHasLess(t, qs, s);
    } else {
      SumInsert(qs.pipeline[0].entries, Entry(s.now, s.job), Allowance(t));
      PipelineSumUpdate(qs.pipeline, 0, Insert(qs.pipeline[0].entries, Entry(s.now, s.job)), Allowance(t));
    }
  }

  /** Over any run, a tally stays within what the jobs had at the start and what inserted jobs brought. */
  lemma {:induction false} TallyIsBounded(t: Tally, qs: Queues, steps: seq<Step>, qs': Queues)
    requires Run(qs, steps, qs') && AllSorted(qs)
    ensures
      Counted(t, steps) + PipelineSum(qs'.pipeline, Allowance(t))
      <= PipelineSum(qs.pipeline, Allowance(t)) + Brought(t, steps)
    decreases |steps|
  {
    if steps != [] {
      StepPays(t, qs, steps[0]);
      StepKeepsSorted(qs, steps[0]);
      TallyIsBounded(t, Next(qs, steps[0]), steps[1..], qs');
    }
  }

  predicate NeverInserted(steps: seq<Step>, pub: JobPublic) {
    forall i :: 0 <= i < |steps| && steps[i].InsertJob? ==> steps[i].job.pub != pub
  }

  lemma {:induction false} OthersBringNothing(t: Tally, steps: seq<Step>)
    requires !t.Steps? && NeverInserted(steps, t.pub)
    ensures Brought(t, steps) == 0
  {
    if steps != [] {
      assert forall i :: 0 <= i < |steps| - 1 ==> steps[1..][i] == steps[i + 1];
      OthersBringNothing(t, steps[1..]);
    }
  }

  /**
   A job that is inserted once, with count `c` and error budget `e`, succeeds at most `c` times, fails at
   most `e` times, and is run at most `c + e - 1` times, whatever else is inserted and in whatever order
   jobs are selected.
   */
  lemma JobRunsAreBounded(qs: Queues, job: Job, now: TimeKey, steps: seq<Step>, qs': Queues)
    requires AllSorted(qs) && Run(qs, [InsertJob(job, now)] + steps, qs')
    requires PipelineSum(qs.pipeline, CopiesOf(job.pub)) == 0 && NeverInserted(steps, job.pub)
    requires job.state.remainingCount > 0 && job.state.remainingErrorBudget > 0
    ensures Counted(Successes(job.pub), steps) <= job.state.remainingCount
    ensures Counted(Failures(job.pub), steps) <= job.state.remainingErrorBudget
    ensures Counted(Runs(job.pub), steps) <= job.state.remainingCount + job.state.remainingErrorBudget - 1
  {
    JobTallyIsBounded(Successes(job.pub), qs, job, now, steps, qs');
    JobTallyIsBounded(Failures(job.pub), qs, job, now, steps, qs');
    JobTallyIsBounded(Runs(job.pub), qs, job, now, steps, qs');
  }

  lemma JobTallyIsBounded(t: Tally, qs: Queues, job: Job, now: TimeKey, steps: seq<Step>, qs': Queues)
    requires AllSorted(qs) && Run(qs, [InsertJob(job, now)] + steps, qs')
    requires !t.Steps? && t.pub == job.pub
    requires PipelineSum(qs.pipeline, CopiesOf(job.pub)) == 0 && NeverInserted(steps, job.pub)
    ensures Counted(t, steps) <= Allowance(t)(job)
  {
    var all := [InsertJob(job, now)] + steps;
    assert all[1..] == steps;
    TallyIsBounded(t, qs, all, qs');
    OthersBringNothing(t, steps);
    AbsentHasNoAllowance(t, qs.pipeline);
  }

  lemma {:induction false} AbsentHasNoAllowance(t: Tally, pipeline: seq<Queue>)
    requires !t.Steps? && PipelineSum(pipeline, CopiesOf(t.pub)) == 0
    ensures PipelineSum(pipeline, Allowance(t)) == 0
  {
    if pipeline != [] {
      AbsentInQueue(t, pipeline[0].entries);
      AbsentHasNoAllowance(t, pipeline[1..]);
    }
  }

  lemma {:induction false} AbsentInQueue(t: Tally, es: Entries)
    requires !t.Steps? && Sum(es, CopiesOf(t.pub)) == 0
    ensures Sum(es, Allowance(t)) == 0
  {
    if es != [] {
      AbsentInQueue(t, es[1..]);
    }
  }

  // ---- With crashes

  /** What the entries that crashes leave behind, besides their copies, can contribute once more. */
  function LeftBehind(t: Tally, attempts: seq<Attempt>): nat {
    if attempts == [] then 0
    else
      var a := attempts[0];
      (if a.crashes && a.step.RunJob? then Allowance(t)(a.step.e.job) else 0) + LeftBehind(t, attempts[1..])
  }

  function StepsOf(attempts: seq<Attempt>): (r: seq<Step>)
    ensures |r| == |attempts| && forall i :: 0 <= i < |r| ==> r[i] == attempts[i].step
  {
    if attempts == [] then [] else [attempts[0].step] + StepsOf(attempts[1..])
  }

  lemma AttemptPays(t: Tally, qs: Queues, a: Attempt)
    requires Enabled(qs, a.step) && AllSorted(qs)
    ensures
      PipelineSum(NextOf(qs, a).pipeline, Allowance(t)) + (if Counts(t, a.step) then 1 else 0)
      <= PipelineSum(qs.pipeline, Allowance(t))
         + (if a.step.InsertJob? then Allowance(t)(a.step.job) else 0)
         + (if a.crashes && a.step.RunJob? then Allowance(t)(a.step.e.job) else 0)
  {
    if a.step.RunJob? {
      RunJobSums(qs, a.step, Allowance(t));
      CopyHasLess(t, qs, a.step);
    } else {
      StepPays(t, qs, a.step);
    }
  }

  /** Over any run with any crashes, a tally, which counts also the runs before a crash, stays within that. */
  lemma {:induction false} TallyIsBoundedInCrashes(t: Tally, qs: Queues, attempts: seq<Attempt>, qs': Queues)
    requires CrashyRun(qs, attempts, qs') && AllSorted(qs)
    ensures
      Counted(t, StepsOf(attempts)) + PipelineSum(qs'.pipeline, Allowance(t))
      <= PipelineSum(qs.pipeline, Allowance(t)) + Brought(t, StepsOf(attempts)) + LeftBehind(t, attempts)
    decreases |attempts|
  {
    if attempts != [] {
      var a := attempts[0];
      AttemptPays(t, qs, a);
      StepKeepsSorted(qs, a.step);
      TallyIsBoundedInCrashes(t, NextOf(qs, a), attempts[1..], qs');
      assert StepsOf(attempts)[1..] == StepsOf(attempts[1..]);
    }
  }

  /** No entry of the job can contribute more than so much. */
  ghost predicate Within(t: Tally, qs: Queues, bound: nat) {
    forall i, e :: 0 <= i < |qs.pipeline| && e in qs.pipeline[i].entries ==> Allowance(t)(e.job) <= bound
  }

  lemma AttemptKeepsWithin(t: Tally, qs: Queues, a: Attempt, bound: nat)
    requires Enabled(qs, a.step) && Within(t, qs, bound)
    requires a.step.InsertJob? ==> Allowance(t)(a.step.job) <= bound
    ensures Within(t, NextOf(qs, a), bound)
  {
    var after := NextOf(qs, a);
    forall i, x | 0 <= i < |after.pipeline| && x in after.pipeline[i].entries
      ensures Allowance(t)(x.job) <= bound
    {
      EntryIsOldOrNew(qs, a, i, x);
      if a.step.RunJob? {
        CopyHasLess(t, qs, a.step);
      }
    }
  }

  /** What is in a queue of the pipeline after a step was there before, was inserted, or is the copy that stays. */
  lemma EntryIsOldOrNew(qs: Queues, a: Attempt, i: nat, x: Entry)
    requires Enabled(qs, a.step) && i < |NextOf(qs, a).pipeline| && x in NextOf(qs, a).pipeline[i].entries
    ensures i < |qs.pipeline|
    ensures
      || x in qs.pipeline[i].entries
      || (a.step.InsertJob? && x.job == a.step.job)
      || (a.step.RunJob? && StaysInPipeline(VerdictOf(qs, a.step)) && x.job == CopyOf(qs, a.step))
  {
    if a.step.RunJob? {
      PushSucceeds(qs, a.step);
      var around, v := AroundOf(qs, a.step.i), VerdictOf(qs, a.step);
      var copy := Rescheduled(a.step.e, v, a.step.now);
      var pushed := Push(around, v.dest, copy).value;
      PushedEntry(around, v.dest, copy, x);
      RemoveKeepsOthers(pushed.current, a.step.e.key, x);
    } else {
      InsertKeeps(qs.pipeline[0].entries, Entry(a.step.now, a.step.job), x);
    }
  }

  lemma PushedEntry(a: Around, dest: Destination, copy: Entry, x: Entry)
    requires Push(a, dest, copy).Success?
    ensures
      var p := Push(a, dest, copy).value;
      && (x in p.current ==> x in a.current || (dest.ToCurrent? && x == copy))
      && (p.next.Some? <==> a.next.Some?)
      && (p.next.Some? && x in p.next.value ==> x in a.next.value || (dest.ToNext? && x == copy))
  {
    match dest
    case ToCurrent => InsertKeeps(a.current, copy, x);
    case ToNext => InsertKeeps(a.next.value, copy, x);
    case _ =>
  }

  /** How often a crash leaves an entry of the job behind. */
  function CrashesOf(attempts: seq<Attempt>, pub: JobPublic): nat {
    if attempts == [] then 0
    else
      var a := attempts[0];
      (if a.crashes && a.step.RunJob? && a.step.e.job.pub == pub then 1 else 0) + CrashesOf(attempts[1..], pub)
  }

  lemma {:induction false} NeverInsertedLater(attempts: seq<Attempt>, pub: JobPublic)
    requires attempts != [] && NeverInserted(StepsOf(attempts), pub)
    ensures NeverInserted(StepsOf(attempts[1..]), pub)
    ensures attempts[0].step.InsertJob? ==> attempts[0].step.job.pub != pub
  {
    assert StepsOf(attempts)[0] == attempts[0].step;
    assert forall i :: 0 <= i < |attempts| - 1 ==> StepsOf(attempts[1..])[i] == StepsOf(attempts)[i + 1];
  }

  lemma FirstIsWithin(t: Tally, qs: Queues, a: Attempt, bound: nat)
    requires !t.Steps? && Enabled(qs, a.step) && Within(t, qs, bound) && a.step.RunJob?
    ensures Allowance(t)(a.step.e.job) <= if a.step.e.job.pub == t.pub then bound else 0
  {
    assert a.step.e in qs.pipeline[a.step.i].entries;
  }

  lemma {:induction false} LeftBehindIsBounded(t: Tally, qs: Queues, attempts: seq<Attempt>, qs': Queues, bound: nat)
    requires !t.Steps? && CrashyRun(qs, attempts, qs') && Within(t, qs, bound)
    requires NeverInserted(StepsOf(attempts), t.pub)
    ensures LeftBehind(t, attempts) <= CrashesOf(attempts, t.pub) * bound
    decreases |attempts|
  {
    if attempts != [] {
      var a, rest := attempts[0], attempts[1..];
      NeverInsertedLater(attempts, t.pub);
      AttemptKeepsWithin(t, qs, a, bound);
      LeftBehindIsBounded(t, NextOf(qs, a), rest, qs', bound);
      if a.crashes && a.step.RunJob? {
        FirstIsWithin(t, qs, a, bound);
        OneMoreTimes(CrashesOf(rest, t.pub), bound);
      }
    }
  }

  lemma OneMoreTimes(n: nat, k: nat)
    ensures (1 + n) * k == k + n * k
  {
  }

  /**
   A job that is inserted once succeeds, fails and is run at most as often as without crashes, times one
   more than the number of crashes that stopped its runs between the push and the deletion.
   */
  lemma JobRunsAreBoundedInCrashes(qs: Queues, job: Job, now: TimeKey, attempts: seq<Attempt>, qs': Queues)
    requires AllSorted(qs) && Enabled(qs, InsertJob(job, now))
    requires CrashyRun(Next(qs, InsertJob(job, now)), attempts, qs')
    requires PipelineSum(qs.pipeline, CopiesOf(job.pub)) == 0 && NeverInserted(StepsOf(attempts), job.pub)
    requires job.state.remainingCount > 0 && job.state.remainingErrorBudget > 0
    ensures
      var times, steps := 1 + CrashesOf(attempts, job.pub), StepsOf(attempts);
      && Counted(Successes(job.pub), steps) <= times * job.state.remainingCount
      && Counted(Failures(job.pub), steps) <= times * job.state.remainingErrorBudget
      && Counted(Runs(job.pub), steps) <= times * (job.state.remainingCount + job.state.remainingErrorBudget - 1)
  {
    JobTallyInCrashes(Successes(job.pub), qs, job, now, attempts, qs');
    JobTallyInCrashes(Failures(job.pub), qs, job, now, attempts, qs');
    JobTallyInCrashes(Runs(job.pub), qs, job, now, attempts, qs');
  }

  lemma JobTallyInCrashes(t: Tally, qs: Queues, job: Job, now: TimeKey, attempts: seq<Attempt>, qs': Queues)
    requires AllSorted(qs) && Enabled(qs, InsertJob(job, now))
    requires CrashyRun(Next(qs, InsertJob(job, now)), attempts, qs')
    requires !t.Steps? && t.pub == job.pub
    requires PipelineSum(qs.pipeline, CopiesOf(job.pub)) == 0 && NeverInserted(StepsOf(attempts), job.pub)
    ensures Counted(t, StepsOf(attempts)) <= (1 + CrashesOf(attempts, job.pub)) * Allowance(t)(job)
  {
    var start, bound := Next(qs, InsertJob(job, now)), Allowance(t)(job);
    StepPays(t, qs, InsertJob(job, now));
    StepKeepsSorted(qs, InsertJob(job, now));
    AbsentHasNoAllowance(t, qs.pipeline);
    AbsentIsWithin(t, qs);
    AttemptKeepsWithin(t, qs, Attempt(InsertJob(job, now), false), bound);
    TallyIsBoundedInCrashes(t, start, attempts, qs');
    OthersBringNothing(t, StepsOf(attempts));
    LeftBehindIsBounded(t, start, attempts, qs', bound);
    OneMoreTimes(CrashesOf(attempts, job.pub), bound);
  }

  lemma AbsentIsWithin(t: Tally, qs: Queues)
    requires !t.Steps? && PipelineSum(qs.pipeline, CopiesOf(t.pub)) == 0
    ensures forall bound: nat :: Within(t, qs, bound)
  {
    forall i, e | 0 <= i < |qs.pipeline| && e in qs.pipeline[i].entries
      ensures Allowance(t)(e.job) == 0
    {
      AbsentInPipeline(qs.pipeline, t.pub, i);
      AbsentEntry(qs.pipeline[i].entries, t.pub, e);
    }
  }

  lemma {:induction false} AbsentInPipeline(pipeline: seq<Queue>, pub: JobPublic, i: nat)
    requires i < |pipeline| && PipelineSum(pipeline, CopiesOf(pub)) == 0
    ensures Sum(pipeline[i].entries, CopiesOf(pub)) == 0
  {
    if i > 0 {
      AbsentInPipeline(pipeline[1..], pub, i - 1);
    }
  }

  lemma {:induction false} AbsentEntry(es: Entries, pub: JobPublic, e: Entry)
    requires Sum(es, CopiesOf(pub)) == 0 && e in es
    ensures e.job.pub != pub
  {
    if es[0] != e {
      AbsentEntry(es[1..], pub, e);
    }
  }

  // ---- Coming to rest

  /** Without insertions there are only so many steps: the pipeline comes to rest. */
  lemma PipelineComesToRest(qs: Queues, steps: seq<Step>, qs': Queues)
    requires AllSorted(qs) && Run(qs, steps, qs')
    requires forall i :: 0 <= i < |steps| ==> steps[i].RunJob?
    ensures |steps| + PipelineSum(qs'.pipeline, Allowance(Steps)) <= PipelineSum(qs.pipeline, Allowance(Steps))
  {
    TallyIsBounded(Steps, qs, steps, qs');
    AllStepsCount(steps);
  }

  lemma {:induction false} AllStepsCount(steps: seq<Step>)
    requires forall i :: 0 <= i < |steps| ==> steps[i].RunJob?
    ensures Counted(Steps, steps) == |steps| && Brought(Steps, steps) == 0
  {
    if steps != [] {
      assert forall i :: 0 <= i < |steps| - 1 ==> steps[1..][i] == steps[i + 1];
      AllStepsCount(steps[1..]);
    }
  }

  // ---- Jobs in the pipeline can run

  predicate Positive(es: Entries) {
    forall k :: 0 <= k < |es| ==> es[k].job.state.remainingCount > 0 && es[k].job.state.remainingErrorBudget > 0
  }

  ghost predicate AllPositive(qs: Queues) {
    forall i :: 0 <= i < |qs.pipeline| ==> Positive(qs.pipeline[i].entries)
  }

  lemma InsertPositive(es: Entries, e: Entry)
    requires Positive(es) && e.job.state.remainingCount > 0 && e.job.state.remainingErrorBudget > 0
    ensures Positive(Insert(es, e))
  {
    forall k | 0 <= k < |Insert(es, e)| { InsertKeeps(es, e, Insert(es, e)[k]); }
  }

  lemma {:induction false} RemoveKeepsOthers(es: Entries, key: TimeKey, x: Entry)
    ensures x in RemoveKey(es, key) ==> x in es
  {
    if es != [] && es[0].key != key {
      RemoveKeepsOthers(es[1..], key, x);
    }
  }

  /** If only jobs that can run are inserted, only such jobs are ever in the pipeline. */
  lemma StepKeepsPositive(qs: Queues, s: Step)
    requires Enabled(qs, s) && AllSorted(qs) && AllPositive(qs)
    requires s.InsertJob? ==> s.job.state.remainingCount > 0 && s.job.state.remainingErrorBudget > 0
    ensures AllPositive(Next(qs, s))
  {
    if s.RunJob? {
      PushSucceeds(qs, s);
      VerdictFacts(qs, s);
      var a, v := AroundOf(qs, s.i), VerdictOf(qs, s);
      PushKeepsPositive(a, v.dest, Rescheduled(s.e, v, s.now));
      RemoveKeepsPositive(Push(a, v.dest, Rescheduled(s.e, v, s.now)).value.current, s.e.key);
    } else {
      InsertPositive(qs.pipeline[0].entries, Entry(s.now, s.job));
    }
  }

  lemma PushKeepsPositive(a: Around, dest: Destination, copy: Entry)
    requires Positive(a.current) && (a.next.Some? ==> Positive(a.next.value)) && Push(a, dest, copy).Success?
    requires dest.ToCurrent? || dest.ToNext? ==>
      copy.job.state.remainingCount > 0 && copy.job.state.remainingErrorBudget > 0
    ensures var pushed := Push(a, dest, copy).value;
      Positive(pushed.current) && (pushed.next.Some? ==> Positive(pushed.next.value))
  {
    match dest
    case ToCurrent => InsertPositive(a.current, copy);
    case ToNext => InsertPositive(a.next.value, copy);
    case _ =>
  }

  lemma RemoveKeepsPositive(es: Entries, key: TimeKey)
    requires Positive(es)
    ensures Positive(RemoveKey(es, key))
  {
    var rest := RemoveKey(es, key);
    forall k | 0 <= k < |rest| { RemoveKeepsOthers(es, key, rest[k]); }
  }

  function WorkLeft(): Job -> nat {
    (job: Job) => job.state.remainingCount + job.state.remainingErrorBudget
  }

  /** Then every job run takes away from the sum of all counts and error budgets in the pipeline. */
  lemma WorkLeftFalls(qs: Queues, s: Step)
    requires s.RunJob? && Enabled(qs, s) && AllSorted(qs) && AllPositive(qs)
    ensures Ran(s)
    ensures PipelineSum(Next(qs, s).pipeline, WorkLeft()) < PipelineSum(qs.pipeline, WorkLeft())
  {
    RunJobSums(qs, s, WorkLeft());
    EntryHasWork(qs, s);
    CopyHasLess(Steps, qs, s);
  }

  lemma EntryHasWork(qs: Queues, s: Step)
    requires s.RunJob? && Enabled(qs, s) && AllPositive(qs)
    ensures Ran(s)
  {
    assert Positive(qs.pipeline[s.i].entries);
  }

  predicate InsertsPositive(steps: seq<Step>) {
    forall k :: 0 <= k < |steps| && steps[k].InsertJob? ==>
      steps[k].job.state.remainingCount > 0 && steps[k].job.state.remainingErrorBudget > 0
  }

  /** So in every run that starts with such jobs and inserts only such jobs. */
  lemma {:induction false} RunKeepsPositive(qs: Queues, steps: seq<Step>, qs': Queues)
    requires AllSorted(qs) && AllPositive(qs) && Run(qs, steps, qs') && InsertsPositive(steps)
    ensures AllPositive(qs')
    ensures forall k :: 0 <= k < |steps| && steps[k].RunJob? ==> Ran(steps[k])
    decreases |steps|
  {
    if steps != [] {
      StepKeepsPositive(qs, steps[0]);
      StepKeepsSorted(qs, steps[0]);
      if steps[0].RunJob? {
        EntryHasWork(qs, steps[0]);
      }
      assert forall k :: 0 <= k < |steps| - 1 ==> steps[1..][k] == steps[k + 1];
      RunKeepsPositive(Next(qs, steps[0]), steps[1..], qs');
    }
  }

  /** And without insertions every run takes at least as much away from the sum as it has steps. */
  lemma {:induction false} WorkLeftBoundsRuns(qs: Queues, steps: seq<Step>, qs': Queues)
    requires AllSorted(qs) && AllPositive(qs) && Run(qs, steps, qs')
    requires forall k :: 0 <= k < |steps| ==> steps[k].RunJob?
    ensures PipelineSum(qs'.pipeline, WorkLeft()) + |steps| <= PipelineSum(qs.pipeline, WorkLeft())
    decreases |steps|
  {
    if steps != [] {
      WorkLeftFalls(qs, steps[0]);
      StepKeepsPositive(qs, steps[0]);
      StepKeepsSorted(qs, steps[0]);
      WorkLeftBoundsRuns(Next(qs, steps[0]), steps[1..], qs');
    }
  }
}
