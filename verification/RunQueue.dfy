/**
 One queue of jobs and the step that runs a job: whatever becomes of the job, its updated copy is
 pushed somewhere before the old entry is deleted.
 */
module RunQueue {
  import opened Wrappers
  import opened TimeKeys
  import opened Jobs

  datatype Entry = Entry(key: TimeKey, job: Job)

  type Entries = seq<Entry>

  datatype QueueError = KeyExists

  ghost predicate Sorted(es: Entries) {
    forall i, j :: 0 <= i < j < |es| ==> Before(es[i].key, es[j].key)
  }

  predicate HasKey(es: Entries, key: TimeKey) {
    exists i :: 0 <= i < |es| && es[i].key == key
  }

  /** The entry in its place in key order. */
  function Insert(es: Entries, e: Entry): Entries {
    if es == [] || Before(e.key, es[0].key) then [e] + es else [es[0]] + Insert(es[1..], e)
  }

  function RemoveKey(es: Entries, key: TimeKey): Entries {
    if es == [] then []
    else if es[0].key == key then es[1..]
    else [es[0]] + RemoveKey(es[1..], key)
  }

  lemma {:induction false} InsertAt(es: Entries, e: Entry) returns (i: nat)
    requires Sorted(es) && !HasKey(es, e.key)
    ensures i <= |es| && Insert(es, e) == es[..i] + [e] + es[i..] && Sorted(Insert(es, e))
  {
    if es == [] || Before(e.key, es[0].key) {
      i := 0;
    } else {
      assert forall k :: 0 <= k < |es| - 1 ==> es[1..][k] == es[k + 1];
      assert es[0].key != e.key;
      i := InsertAt(es[1..], e);
      i := i + 1;
    }
  }

  lemma {:induction false} RemoveAt(es: Entries, i: nat)
    requires Sorted(es) && i < |es|
    ensures RemoveKey(es, es[i].key) == es[..i] + es[i + 1..] && Sorted(RemoveKey(es, es[i].key))
  {
    if i > 0 {
      assert Before(es[0].key, es[i].key);
      SortedTail(es);
      RemoveAt(es[1..], i - 1);
      assert es[1..][..i - 1] == es[1..i] && es[1..][i..] == es[i + 1..];
      assert [es[0]] + (es[1..i] + es[i + 1..]) == es[..i] + es[i + 1..];
    }
    WithoutOneSorted(es, i);
  }

  lemma SortedTail(es: Entries)
    requires Sorted(es) && es != []
    ensures Sorted(es[1..])
  {
  }

  lemma WithoutOneSorted(es: Entries, i: nat)
    requires Sorted(es) && i < |es|
    ensures Sorted(es[..i] + es[i + 1..])
  {
    var r := es[..i] + es[i + 1..];
    assert forall k :: 0 <= k < |r| ==> r[k] == es[if k < i then k else k + 1];
  }

  lemma {:induction false} RemoveAbsent(es: Entries, key: TimeKey)
    requires !HasKey(es, key)
    ensures RemoveKey(es, key) == es
  {
    if es != [] {
      assert es[0].key != key;
      assert forall k :: 0 <= k < |es| - 1 ==> es[1..][k] == es[k + 1];
      RemoveAbsent(es[1..], key);
    }
  }

  /** The jobs of `moved` inserted one after the other, under the keys that the clock gives them. */
  function InsertAll(es: Entries, moved: Entries, nows: seq<TimeKey>): Entries
    requires |moved| <= |nows|
  {
    if moved == [] then es
    else
      var n := |moved| - 1;
      Insert(InsertAll(es, moved[..n], nows), Entry(nows[n], moved[n].job))
  }

  ghost predicate After(now: TimeKey, es: Entries) {
    forall i :: 0 <= i < |es| ==> Before(es[i].key, now)
  }

  lemma {:induction false} InsertLast(es: Entries, e: Entry)
    requires After(e.key, es)
    ensures Insert(es, e) == es + [e] && !HasKey(es, e.key)
  {
    if es != [] {
      assert Before(es[0].key, e.key);
      assert forall k :: 0 <= k < |es| - 1 ==> es[1..][k] == es[k + 1];
      InsertLast(es[1..], e);
    }
  }

  // ---- What becomes of a job

  datatype JobStatus = Active | Done(retained: bool) | Dropped | Error(retained: bool)

  datatype Destination = ToCurrent | ToNext | ToErroneous | ToDone | Nowhere

  /** Whether the job was run at all, its new state, and where the copy with that state goes. */
  datatype Verdict = Verdict(ran: bool, state: JobState, dest: Destination, status: JobStatus)

  /** The queues a running job can get into; the current one holds it. */
  datatype Around = Around(current: Entries, next: Option<Entries>, erroneous: Option<Entries>, done: Option<Entries>)

  predicate Repeats(condition: ScheduleCondition) {
    condition.LocalNaiveTimeWindow? && condition.repeatedly
  }

  function OutOfErrorBudget(ran: bool, a: Around, st: JobState, wd: WorkingDirectoryId): Verdict
  {
    Verdict(ran, JobState(st.remainingCount, 0, Some(wd)),
            if a.erroneous.Some? then ToErroneous else Nowhere, Error(a.erroneous.Some?))
  }

  function Completed(ran: bool, a: Around, count: u8, budget: u8, wd: WorkingDirectoryId): Verdict {
    Verdict(ran, JobState(count, budget, Some(wd)), if a.done.Some? then ToDone else Nowhere, Done(a.done.Some?))
  }

  function Decide(
      condition: ScheduleCondition, a: Around, st: JobState, succeeded: bool, wd: WorkingDirectoryId): Verdict {
    var count, budget := st.remainingCount, st.remainingErrorBudget;
    if budget == 0 then
      OutOfErrorBudget(false, a, st, wd)
    else if count == 0 then
      Completed(false, a, count, budget, wd)
    else if !succeeded then
      if budget > 1 then Verdict(true, JobState(count, budget - 1, Some(wd)), ToCurrent, Active)
      else OutOfErrorBudget(true, a, st, wd)
    else if count == 1 then
      Completed(true, a, 0, budget, wd)
    else
      var st' := JobState(count - 1, budget, Some(wd));
      if Repeats(condition) then Verdict(true, st', ToCurrent, Active)
      else if a.next.Some? then Verdict(true, st', ToNext, Active)
      else Verdict(true, st', Nowhere, Dropped)
  }

  function Push(a: Around, dest: Destination, e: Entry): Result<Around, QueueError> {
    match dest
    case ToCurrent =>
      if HasKey(a.current, e.key) then Failure(KeyExists) else Success(a.(current := Insert(a.current, e)))
    case ToNext =>
      if a.next.None? || HasKey(a.next.value, e.key) then Failure(KeyExists)
      else Success(a.(next := Some(Insert(a.next.value, e))))
    case ToErroneous =>
      if a.erroneous.None? || HasKey(a.erroneous.value, e.key) then Failure(KeyExists)
      else Success(a.(erroneous := Some(Insert(a.erroneous.value, e))))
    case ToDone =>
      if a.done.None? || HasKey(a.done.value, e.key) then Failure(KeyExists)
      else Success(a.(done := Some(Insert(a.done.value, e))))
    case Nowhere => Success(a)
  }

  /** The copy that is pushed. */
  function Rescheduled(e: Entry, v: Verdict, now: TimeKey): Entry {
    Entry(now, e.job.CloneForQueueReinsertion(v.state))
  }

  /** The queues before the old entry is deleted, i.e. what a crash at that point leaves. */
  function AfterPush(
      condition: ScheduleCondition, a: Around, e: Entry, succeeded: bool, wd: WorkingDirectoryId, now: TimeKey)
    : Result<Around, QueueError>
  {
    var v := Decide(condition, a, e.job.state, succeeded, wd);
    Push(a, v.dest, Rescheduled(e, v, now))
  }

  function AfterRun(
      condition: ScheduleCondition, a: Around, e: Entry, succeeded: bool, wd: WorkingDirectoryId, now: TimeKey)
    : Result<(Around, JobStatus), QueueError>
  {
    var pushed := AfterPush(condition, a, e, succeeded, wd, now);
    if pushed.Failure? then Failure(pushed.error)
    else Success((pushed.value.(current := RemoveKey(pushed.value.current, e.key)),
                  Decide(condition, a, e.job.state, succeeded, wd).status))
  }

  // ---- The queue as an object

  class RunQueue {
    const fileName: string
    const condition: ScheduleCondition
    var entries: Entries

    constructor (fileName: string, condition: ScheduleCondition)
      ensures this.fileName == fileName && this.condition == condition && entries == []
    {
      this.fileName := fileName;
      this.condition := condition;
      entries := [];
    }

    /** `now` is the key that the clock gives. */
    method PushFront(job: Job, now: TimeKey) returns (r: Result<(), QueueError>)
      modifies this
      ensures r == if HasKey(old(entries), now) then Failure(KeyExists) else Success(())
      ensures entries == if r.Success? then Insert(old(entries), Entry(now, job)) else old(entries)
    {
      if HasKey(entries, now) {
        return Failure(KeyExists);
      }
      entries := Insert(entries, Entry(now, job));
      return Success(());
    }

    method Delete(key: TimeKey)
      modifies this
      ensures entries == RemoveKey(old(entries), key)
    {
      entries := RemoveKey(entries, key);
    }
  }

  ghost function EntriesOf(q: RunQueue?): Option<Entries>
    reads if q == null then {} else {q}
  {
    if q == null then None else Some(q.entries)
  }

  /** A queue with its successor, and the two queues where jobs end up. */
  class RunQueueWithNext {
    const current: RunQueue
    const next: RunQueue?
    const erroneous: RunQueue?
    const done: RunQueue?

    constructor (current: RunQueue, next: RunQueue?, erroneous: RunQueue?, done: RunQueue?)
      requires current != next && current != erroneous && current != done
      requires next != null ==> next != erroneous && next != done
      requires erroneous != null ==> erroneous != done
      ensures this.current == current && this.next == next && this.erroneous == erroneous && this.done == done
      ensures Valid()
    {
      this.current, this.next, this.erroneous, this.done := current, next, erroneous, done;
    }

    ghost predicate Valid() {
      && current != next && current != erroneous && current != done
      && (next != null ==> next != erroneous && next != done)
      && (erroneous != null ==> erroneous != done)
    }

    ghost function Queues(): set<RunQueue> {
      {current} + (if next != null then {next} else {})
      + (if erroneous != null then {erroneous} else {}) + (if done != null then {done} else {})
    }

    ghost function Abs(): Around
      reads Queues()
    {
      Around(current.entries, EntriesOf(next), EntriesOf(erroneous), EntriesOf(done))
    }

    method FinishCompletedJob(job: Job, count: u8, budget: u8, wd: WorkingDirectoryId, now: TimeKey)
      returns (r: Result<JobStatus, QueueError>)
      requires Valid()
      modifies Queues()
      ensures
        var v := Completed(true, old(Abs()), count, budget, wd);
        var pushed := Push(old(Abs()), v.dest, Entry(now, job.CloneForQueueReinsertion(v.state)));
        && Abs() == (if pushed.Success? then pushed.value else old(Abs()))
        && r == if pushed.Success? then Success(v.status) else Failure(KeyExists)
    {
      var job' := job.CloneForQueueReinsertion(JobState(count, budget, Some(wd)));
      if done != null {
        var p := done.PushFront(job', now);
        return if p.Success? then Success(Done(true)) else Failure(p.error);
      }
      return Success(Done(false));
    }

    method HandleOutOfErrorBudget(job: Job, count: u8, wd: WorkingDirectoryId, now: TimeKey)
      returns (r: Result<JobStatus, QueueError>)
      requires Valid()
      modifies Queues()
      ensures
        var v := OutOfErrorBudget(true, old(Abs()), JobState(count, 0, None), wd);
        var pushed := Push(old(Abs()), v.dest, Entry(now, job.CloneForQueueReinsertion(v.state)));
        && Abs() == (if pushed.Success? then pushed.value else old(Abs()))
        && r == if pushed.Success? then Success(v.status) else Failure(KeyExists)
    {
      var job' := job.CloneForQueueReinsertion(JobState(count, 0, Some(wd)));
      if erroneous != null {
        var p := erroneous.PushFront(job', now);
        return if p.Success? then Success(Error(true)) else Failure(p.error);
      }
      return Success(Error(false));
    }

    /**
     The part of `run_job` up to the deletion: runs the job and pushes its copy. `succeeded` is how
     the run went, if the job was run.
     */
    method RunAndPush(e: Entry, succeeded: bool, wd: WorkingDirectoryId, now: TimeKey)
      returns (status: Result<JobStatus, QueueError>)
      requires Valid() && !current.condition.Inactive?
      modifies Queues()
      ensures
        var pushed := AfterPush(current.condition, old(Abs()), e, succeeded, wd, now);
        && Abs() == (if pushed.Success? then pushed.value else old(Abs()))
        && status == if pushed.Success?
                     then Success(Decide(current.condition, old(Abs()), e.job.state, succeeded, wd).status)
                     else Failure(pushed.error)
    {
      var JobState(count, budget, _) := e.job.state;
      if budget > 0 {
        if count > 0 {
          if !succeeded {
            budget := budget - 1;
            if budget > 0 {
              var job := e.job.CloneForQueueReinsertion(JobState(count, budget, Some(wd)));
              var p := current.PushFront(job, now);
              status := if p.Success? then Success(Active) else Failure(p.error);
            } else {
              status := HandleOutOfErrorBudget(e.job, count, wd, now);
            }
          } else {
            count := count - 1;
            if count > 0 {
              var maybeQueue: RunQueue?;
              match current.condition {
                case Immediately(_) => maybeQueue := next;
                case LocalNaiveTimeWindow(_, _, _, repeatedly, _, _, _) =>
                  maybeQueue := if repeatedly then current else next;
              }
              var job := e.job.CloneForQueueReinsertion(JobState(count, budget, Some(wd)));
              if maybeQueue != null {
                var p := maybeQueue.PushFront(job, now);
                status := if p.Success? then Success(Active) else Failure(p.error);
              } else {
                status := Success(Dropped);
              }
            } else {
              status := FinishCompletedJob(e.job, count, budget, wd, now);
            }
          }
        } else {
          status := FinishCompletedJob(e.job, count, budget, wd, now);
        }
      } else {
        status := HandleOutOfErrorBudget(e.job, count, wd, now);
      }
    }

    method RunJob(e: Entry, succeeded: bool, wd: WorkingDirectoryId, now: TimeKey)
      returns (status: Result<JobStatus, QueueError>)
      requires Valid() && !current.condition.Inactive?
      modifies Queues()
      ensures
        var after := AfterRun(current.condition, old(Abs()), e, succeeded, wd, now);
        && Abs() == (if after.Success? then after.value.0 else old(Abs()))
        && status == if after.Success? then Success(after.value.1) else Failure(after.error)
    {
      status := RunAndPush(e, succeeded, wd, now);
      if status.Success? {
        current.Delete(e.key);
      }
    }

    /** Moves all entries to the next queue, in order; without a next queue they are deleted. */
    method HandleTimeout(nows: seq<TimeKey>) returns (r: Result<nat, QueueError>)
      requires Valid() && Sorted(current.entries) && |current.entries| <= |nows|
      modifies Queues()
      ensures !(current.condition.LocalNaiveTimeWindow? && current.condition.moveWhenTimeWindowEnds) ==>
        r == Success(0) && Abs() == old(Abs())
      ensures current.condition.LocalNaiveTimeWindow? && current.condition.moveWhenTimeWindowEnds ==>
        exists n: nat :: n <= |old(current.entries)| && Moved(old(Abs()), Abs(), n, nows)
          && (if n == |old(current.entries)| then r == Success(n)
              else r == Failure(KeyExists) && next != null && HasKey(next.entries, nows[n]))
    {
      if !current.condition.MovesWhenTimeWindowEnds() {
        return Success(0);
      }
      ghost var before := Abs();
      var entries := current.entries;
      var count: nat := 0;
      while count < |entries|
        invariant count <= |entries| && entries == old(current.entries)
        invariant Moved(before, Abs(), count, nows)
      {
        var job := entries[count].job;
        if next != null {
          assert entries[..count + 1][..count] == entries[..count];
          var p := next.PushFront(job, nows[count]);
          if p.Failure? {
            return Failure(p.error);
          }
        }
        assert entries[count] == current.entries[0];
        current.Delete(entries[count].key);
        count := count + 1;
      }
      return Success(count);
    }
  }

  /** The first `n` entries have left the current queue and arrived in the next one, if there is one. */
  ghost predicate Moved(old_: Around, new_: Around, n: nat, nows: seq<TimeKey>)
    requires n <= |old_.current| && n <= |nows|
  {
    && new_.current == old_.current[n..]
    && new_.next == (if old_.next.Some? then Some(InsertAll(old_.next.value, old_.current[..n], nows)) else None)
    && new_.erroneous == old_.erroneous && new_.done == old_.done
  }

  function Rekeyed(moved: Entries, nows: seq<TimeKey>): (r: Entries)
    requires |moved| <= |nows|
    ensures |r| == |moved| && forall i :: 0 <= i < |r| ==> r[i] == Entry(nows[i], moved[i].job)
  {
    if moved == [] then []
    else
      var n := |moved| - 1;
      Rekeyed(moved[..n], nows) + [Entry(nows[n], moved[n].job)]
  }

  /** With a clock that goes forward the moved jobs keep their order, behind those already there. */
  lemma {:induction false} MovedInOrder(es: Entries, moved: Entries, nows: seq<TimeKey>)
    requires |moved| <= |nows|
    requires forall i, j :: 0 <= i < j < |nows| ==> Before(nows[i], nows[j])
    requires forall i :: 0 <= i < |nows| ==> After(nows[i], es)
    ensures InsertAll(es, moved, nows) == es + Rekeyed(moved, nows)
  {
    if moved != [] {
      var n := |moved| - 1;
      MovedInOrder(es, moved[..n], nows);
      var front := es + Rekeyed(moved[..n], nows);
      assert After(nows[n], front) by {
        assert After(nows[n], es);
        forall i | 0 <= i < |front|
          ensures Before(front[i].key, nows[n])
        {
          assert i >= |es| ==> front[i] == Rekeyed(moved[..n], nows)[i - |es|];
        }
      }
      InsertLast(front, Entry(nows[n], moved[n].job));
    }
  }
}
