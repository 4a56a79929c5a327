/** All queues: the check of the configuration, the index by commit, the selection of the next job. */
module RunQueues {
  import opened Wrappers
  import opened TimeKeys
  import opened TimeRanges
  import opened Jobs
  import opened RunQueue
  import opened Scheduler

  // ---- Selection

  predicate Runnable(q: Queue, cal: Calendar, t: Time) {
    q.condition.Valid() && q.condition.IsRunnableAt(cal, t).Some?
  }

  /** The priority of an entry together with that of its queue. */
  function TotalPriority(q: Queue, j: nat): Priority
    requires j < |q.entries| && !q.condition.Inactive?
  {
    q.entries[j].job.Priority() + q.condition.QueuePriority().value
  }

  /** The first of the most prioritized among the first `n` entries. */
  function Best(q: Queue, n: nat): (j: nat)
    requires 0 < n <= |q.entries| && !q.condition.Inactive?
    ensures j < n
    ensures forall k :: 0 <= k < n ==> TotalPriority(q, k) <= TotalPriority(q, j)
    ensures forall k :: 0 <= k < j ==> TotalPriority(q, k) < TotalPriority(q, j)
  {
    if n == 1 then 0
    else
      var j := Best(q, n - 1);
      if TotalPriority(q, n - 1) > TotalPriority(q, j) then n - 1 else j
  }

  predicate IsCandidate(pipeline: seq<Queue>, cal: Calendar, t: Time, i: nat, j: nat) {
    i < |pipeline| && j < |pipeline[i].entries| && Runnable(pipeline[i], cal, t)
  }

  /** Of the best entries of the first `m` queues, the first of the most prioritized ones. */
  function MostPrioritized(pipeline: seq<Queue>, cal: Calendar, t: Time, m: nat): (r: Option<(nat, nat)>)
    requires m <= |pipeline|
    ensures r.Some? ==> r.value.0 < m && IsCandidate(pipeline, cal, t, r.value.0, r.value.1)
  {
    if m == 0 then None
    else
      var best, q := MostPrioritized(pipeline, cal, t, m - 1), pipeline[m - 1];
      if !Runnable(q, cal, t) || q.entries == [] then best
      else
        var j := Best(q, |q.entries|);
        if best.None? || TotalPriority(q, j) > TotalPriority(pipeline[best.value.0], best.value.1)
        then Some((m - 1, j))
        else best
  }

  /** Higher priority, else the earlier queue, else the older entry. */
  predicate Precedes(pipeline: seq<Queue>, i: nat, j: nat, i': nat, j': nat)
    requires i < |pipeline| && j < |pipeline[i].entries| && !pipeline[i].condition.Inactive?
    requires i' < |pipeline| && j' < |pipeline[i'].entries| && !pipeline[i'].condition.Inactive?
  {
    var p, p' := TotalPriority(pipeline[i], j), TotalPriority(pipeline[i'], j');
    p > p' || (p == p' && (i < i' || (i == i' && Before(pipeline[i].entries[j].key, pipeline[i'].entries[j'].key))))
  }

  lemma BestPrecedes(pipeline: seq<Queue>, i: nat, k: nat)
    requires i < |pipeline| && !pipeline[i].condition.Inactive? && Sorted(pipeline[i].entries)
    requires k < |pipeline[i].entries| && k != Best(pipeline[i], |pipeline[i].entries|)
    ensures Precedes(pipeline, i, Best(pipeline[i], |pipeline[i].entries|), i, k)
  {
  }

  ghost predicate PrecedesAll(pipeline: seq<Queue>, cal: Calendar, t: Time, m: nat, i: nat, j: nat)
    requires IsCandidate(pipeline, cal, t, i, j)
  {
    forall i': nat, j': nat :: i' < m && IsCandidate(pipeline, cal, t, i', j') && (i', j') != (i, j)
      ==> Precedes(pipeline, i, j, i', j')
  }

  /** The two-stage minimum is the one entry of all runnable queues that precedes all others. */
  lemma {:induction false} SelectionIsGlobalOptimum(pipeline: seq<Queue>, cal: Calendar, t: Time, m: nat)
    requires m <= |pipeline| && forall i :: 0 <= i < m ==> Sorted(pipeline[i].entries)
    ensures MostPrioritized(pipeline, cal, t, m).None? <==>
      forall i: nat, j: nat :: i < m ==> !IsCandidate(pipeline, cal, t, i, j)
    ensures
      var r := MostPrioritized(pipeline, cal, t, m);
      r.Some? ==> PrecedesAll(pipeline, cal, t, m, r.value.0, r.value.1)
  {
    if m > 0 {
      SelectionIsGlobalOptimum(pipeline, cal, t, m - 1);
      var q, r := pipeline[m - 1], MostPrioritized(pipeline, cal, t, m);
      if Runnable(q, cal, t) && q.entries != [] {
        var b := Best(q, |q.entries|);
        assert IsCandidate(pipeline, cal, t, m - 1, b);
        forall i: nat, j: nat | i < m && IsCandidate(pipeline, cal, t, i, j) && (i, j) != r.value
          ensures Precedes(pipeline, r.value.0, r.value.1, i, j)
        {
          if i == m - 1 && j != b {
            BestPrecedes(pipeline, m - 1, j);
          }
        }
      }
    }
  }

  /** What a queue adds to the priorities of its jobs: nothing, what is configured, or the default for windows. */
  function QueueShare(condition: ScheduleCondition): real
    requires !condition.Inactive?
  {
    match condition
    case Immediately(_) => 0.0
    case LocalNaiveTimeWindow(priority, _, _, _, _, _, _) => if priority.Some? then priority.value else 1.5
  }

  /** Base priority, boost and the share of the queue. */
  function PrioritySum(pipeline: seq<Queue>, i: nat, j: nat): real
    requires i < |pipeline| && j < |pipeline[i].entries| && !pipeline[i].condition.Inactive?
  {
    var job := pipeline[i].entries[j].job;
    job.basePriority + job.currentBoost + QueueShare(pipeline[i].condition)
  }

  /**
   No entry of a runnable queue has a larger sum than the selected one, and of those with the same sum it
   is in the first queue, and there the first.
   */
  lemma SelectionHasLargestSum(pipeline: seq<Queue>, cal: Calendar, t: Time, i: nat, j: nat)
    requires forall k :: 0 <= k < |pipeline| ==> Sorted(pipeline[k].entries)
    requires IsCandidate(pipeline, cal, t, i, j)
    ensures MostPrioritized(pipeline, cal, t, |pipeline|).Some?
    ensures
      var (k, l) := MostPrioritized(pipeline, cal, t, |pipeline|).value;
      var selected, other := PrioritySum(pipeline, k, l), PrioritySum(pipeline, i, j);
      selected > other || (selected == other && (k < i || (k == i && l <= j)))
  {
    SelectionIsGlobalOptimum(pipeline, cal, t, |pipeline|);
    var (k, l) := MostPrioritized(pipeline, cal, t, |pipeline|).value;
    if (i, j) != (k, l) {
      assert Precedes(pipeline, k, l, i, j);
      if k == i && j < l {
        assert Before(pipeline[k].entries[j].key, pipeline[k].entries[l].key);
      }
    }
  }

  /**
   What is selected is a step of the scheduler, so that what holds for all its runs holds for the
   selected ones; and `RunNextJob` below then has exactly the effect of that step.
   */
  lemma SelectedStepIsEnabled(qs: Queues, cal: Calendar, t: Time, succeeded: bool, wd: WorkingDirectoryId, now: TimeKey)
    requires MostPrioritized(qs.pipeline, cal, t, |qs.pipeline|).Some? && !KeyInUse(qs, now)
    ensures
      var (i, j) := MostPrioritized(qs.pipeline, cal, t, |qs.pipeline|).value;
      var step := RunJob(i, qs.pipeline[i].entries[j], succeeded, wd, now);
      && Enabled(qs, step) && HasKey(qs.pipeline[i].entries, step.e.key)
      && var after := AfterRun(qs.pipeline[i].condition, AroundOf(qs, i), step.e, succeeded, wd, now);
         after.Success? && Next(qs, step) == WithAround(qs, i, after.value.0)
  {
    var (i, j) := MostPrioritized(qs.pipeline, cal, t, |qs.pipeline|).value;
    PushSucceeds(qs, RunJob(i, qs.pipeline[i].entries[j], succeeded, wd, now));
  }

  // ---- Runs of selected steps

  /** A step of the scheduler and when it is taken. */
  datatype Timed = Timed(step: Step, at: Time)

  /** An insertion, or the run of the job that is selected at that time. */
  predicate IsSelected(qs: Queues, cal: Calendar, ts: Timed) {
    Enabled(qs, ts.step) &&
    (ts.step.RunJob? ==>
       MostPrioritized(qs.pipeline, cal, ts.at, |qs.pipeline|).Some? &&
       var (i, j) := MostPrioritized(qs.pipeline, cal, ts.at, |qs.pipeline|).value;
       ts.step.i == i && ts.step.e == qs.pipeline[i].entries[j])
  }

  /** Steps that are taken one after the other, from some time on. */
  predicate SelectedRun(qs: Queues, cal: Calendar, from: Time, steps: seq<Timed>, qs': Queues)
    decreases |steps|
  {
    if steps == [] then qs == qs'
    else
      && from <= steps[0].at && IsSelected(qs, cal, steps[0])
      && SelectedRun(Next(qs, steps[0].step), cal, steps[0].at, steps[1..], qs')
  }

  function Untimed(steps: seq<Timed>): (r: seq<Step>)
    ensures |r| == |steps| && forall k :: 0 <= k < |r| ==> r[k] == steps[k].step
  {
    seq(|steps|, k requires 0 <= k < |steps| => steps[k].step)
  }

  /** A selected job is in a queue that is runnable at the time. */
  lemma SelectedIsRunnable(qs: Queues, cal: Calendar, ts: Timed)
    requires IsSelected(qs, cal, ts) && ts.step.RunJob?
    ensures ts.step.i < |qs.pipeline| && Runnable(qs.pipeline[ts.step.i], cal, ts.at)
  {
  }

  /** Runs of selected steps are runs of the scheduler. */
  lemma {:induction false} SelectedRunIsRun(qs: Queues, cal: Calendar, from: Time, steps: seq<Timed>, qs': Queues)
    requires SelectedRun(qs, cal, from, steps, qs')
    ensures Run(qs, Untimed(steps), qs')
    decreases |steps|
  {
    if steps != [] {
      SelectedRunIsRun(Next(qs, steps[0].step), cal, steps[0].at, steps[1..], qs');
      assert Untimed(steps)[1..] == Untimed(steps[1..]);
    }
  }

  /** Of the queue that is selected it is the best entry. */
  lemma {:induction false} SelectedIsBest(pipeline: seq<Queue>, cal: Calendar, t: Time, m: nat)
    requires m <= |pipeline| && MostPrioritized(pipeline, cal, t, m).Some?
    ensures
      var (i, j) := MostPrioritized(pipeline, cal, t, m).value;
      j == Best(pipeline[i], |pipeline[i].entries|)
  {
    if MostPrioritized(pipeline, cal, t, m - 1).Some? {
      SelectedIsBest(pipeline, cal, t, m - 1);
    }
  }

  /** When only one queue holds jobs and is runnable, its best job is selected. */
  lemma {:induction false} OnlyQueueIsSelected(pipeline: seq<Queue>, cal: Calendar, t: Time, m: nat, k: nat)
    requires m <= |pipeline| && k < |pipeline| && Runnable(pipeline[k], cal, t) && pipeline[k].entries != []
    requires forall i :: 0 <= i < |pipeline| && i != k ==> pipeline[i].entries == []
    ensures MostPrioritized(pipeline, cal, t, m)
         == if k < m then Some((k, Best(pipeline[k], |pipeline[k].entries|))) else None
  {
    if m > 0 {
      OnlyQueueIsSelected(pipeline, cal, t, m - 1, k);
    }
  }

  // ---- The index by commit

  /** The positions of the jobs for a commit in queue `i`, up to entry `n`. */
  function PositionsIn(es: Entries, i: nat, n: nat, commit: CommitId): seq<(nat, nat)>
    requires n <= |es|
  {
    if n == 0 then []
    else PositionsIn(es, i, n - 1, commit) + if es[n - 1].job.pub.commitId == commit then [(i, n - 1)] else []
  }

  function Positions(pipeline: seq<Queue>, m: nat, commit: CommitId): seq<(nat, nat)>
    requires m <= |pipeline|
  {
    if m == 0 then []
    else Positions(pipeline, m - 1, commit)
         + PositionsIn(pipeline[m - 1].entries, m - 1, |pipeline[m - 1].entries|, commit)
  }

  lemma {:induction false} PositionsInMembers(es: Entries, i: nat, n: nat, commit: CommitId, x: (nat, nat))
    requires n <= |es|
    ensures x in PositionsIn(es, i, n, commit)
        <==> x.0 == i && x.1 < n && es[x.1].job.pub.commitId == commit
  {
    if n > 0 {
      PositionsInMembers(es, i, n - 1, commit, x);
    }
  }

  lemma {:induction false} PositionsMembers(pipeline: seq<Queue>, m: nat, commit: CommitId, x: (nat, nat))
    requires m <= |pipeline|
    ensures x in Positions(pipeline, m, commit)
        <==> x.0 < m && x.1 < |pipeline[x.0].entries| && pipeline[x.0].entries[x.1].job.pub.commitId == commit
  {
    if m > 0 {
      PositionsMembers(pipeline, m - 1, commit, x);
      PositionsInMembers(pipeline[m - 1].entries, m - 1, |pipeline[m - 1].entries|, commit, x);
    }
  }

  /** By queue, and in a queue from the oldest entry on. */
  ghost predicate InOrder(xs: seq<(nat, nat)>) {
    forall i, j :: 0 <= i < j < |xs| ==> xs[i].0 < xs[j].0 || (xs[i].0 == xs[j].0 && xs[i].1 < xs[j].1)
  }

  lemma {:induction false} PositionsInAreInOrder(es: Entries, i: nat, n: nat, commit: CommitId)
    requires n <= |es|
    ensures InOrder(PositionsIn(es, i, n, commit))
  {
    if n > 0 {
      PositionsInAreInOrder(es, i, n - 1, commit);
      var front := PositionsIn(es, i, n - 1, commit);
      forall k | 0 <= k < |front|
        ensures front[k].0 == i && front[k].1 < n - 1
      {
        PositionsInMembers(es, i, n - 1, commit, front[k]);
      }
    }
  }

  /** The positions of a commit are listed in order, so each once. */
  lemma {:induction false} PositionsAreInOrder(pipeline: seq<Queue>, m: nat, commit: CommitId)
    requires m <= |pipeline|
    ensures InOrder(Positions(pipeline, m, commit))
  {
    if m > 0 {
      var es := pipeline[m - 1].entries;
      var front, here := Positions(pipeline, m - 1, commit), PositionsIn(es, m - 1, |es|, commit);
      PositionsAreInOrder(pipeline, m - 1, commit);
      PositionsInAreInOrder(es, m - 1, |es|, commit);
      forall k | 0 <= k < |front|
        ensures front[k].0 < m - 1
      {
        PositionsMembers(pipeline, m - 1, commit, front[k]);
      }
      forall k | 0 <= k < |here|
        ensures here[k].0 == m - 1
      {
        PositionsInMembers(es, m - 1, |es|, commit, here[k]);
      }
    }
  }

  type Index = map<CommitId, seq<(nat, nat)>>

  function At(index: Index, c: CommitId): seq<(nat, nat)> {
    if c in index then index[c] else []
  }

  ghost predicate Indexes(index: Index, pipeline: seq<Queue>, m: nat)
    requires m <= |pipeline|
  {
    forall c :: At(index, c) == Positions(pipeline, m, c)
  }

  /** The loaded queues with their index. */
  datatype RunQueuesData = RunQueuesData(pipeline: seq<Queue>, jobsByCommitId: Index) {
    ghost predicate Valid() {
      Indexes(jobsByCommitId, pipeline, |pipeline|)
    }

    function JobsByCommitId(commit: CommitId): seq<(nat, nat)> {
      At(jobsByCommitId, commit)
    }

    predicate HaveJobWithCommitId(commit: CommitId) {
      JobsByCommitId(commit) != []
    }

    /** The index answers as a full scan of all queues would. */
    lemma IndexIsFullScan(commit: CommitId)
      requires Valid()
      ensures HaveJobWithCommitId(commit) <==>
        exists i, j :: 0 <= i < |pipeline| && 0 <= j < |pipeline[i].entries|
          && pipeline[i].entries[j].job.pub.commitId == commit
    {
      if HaveJobWithCommitId(commit) {
        var x := JobsByCommitId(commit)[0];
        PositionsMembers(pipeline, |pipeline|, commit, x);
        assert pipeline[x.0].entries[x.1].job.pub.commitId == commit;
      } else {
        forall i, j | 0 <= i < |pipeline| && 0 <= j < |pipeline[i].entries|
          ensures pipeline[i].entries[j].job.pub.commitId != commit
        {
          PositionsMembers(pipeline, |pipeline|, commit, (i, j));
        }
      }
    }
  }

  datatype DataError = InactiveQueueInPipeline

  /** Loads the queues; panics on a job in a queue without priority. */
  method BuildData(pipeline: seq<Queue>) returns (r: Result<RunQueuesData, DataError>)
    ensures r.Failure? <==>
      exists i :: 0 <= i < |pipeline| && pipeline[i].condition.Inactive? && pipeline[i].entries != []
    ensures r.Success? ==> r.value.Valid() && r.value.pipeline == pipeline
  {
    for i := 0 to |pipeline|
      invariant forall k :: 0 <= k < i ==> !(pipeline[k].condition.Inactive? && pipeline[k].entries != [])
    {
      if pipeline[i].entries != [] && pipeline[i].condition.QueuePriority().None? {
        return Failure(InactiveQueueInPipeline);
      }
    }
    var index := BuildIndex(pipeline);
    return Success(RunQueuesData(pipeline, index));
  }

  method BuildIndex(pipeline: seq<Queue>) returns (index: Index)
    ensures Indexes(index, pipeline, |pipeline|)
  {
    index := map[];
    for i := 0 to |pipeline|
      invariant Indexes(index, pipeline, i)
    {
      index := IndexQueue(index, pipeline, i);
    }
  }

  ghost predicate IndexesPart(index: Index, pipeline: seq<Queue>, i: nat, j: nat)
    requires i < |pipeline| && j <= |pipeline[i].entries|
  {
    forall c :: At(index, c) == Positions(pipeline, i, c) + PositionsIn(pipeline[i].entries, i, j, c)
  }

  lemma IndexOneMore(index: Index, pipeline: seq<Queue>, i: nat, j: nat)
    requires i < |pipeline| && j < |pipeline[i].entries| && IndexesPart(index, pipeline, i, j)
    ensures
      var commit := pipeline[i].entries[j].job.pub.commitId;
      IndexesPart(index[commit := At(index, commit) + [(i, j)]], pipeline, i, j + 1)
  {
    var es := pipeline[i].entries;
    var commit := es[j].job.pub.commitId;
    var index' := index[commit := At(index, commit) + [(i, j)]];
    forall c
      ensures At(index', c) == Positions(pipeline, i, c) + PositionsIn(es, i, j + 1, c)
    {
      var before, here := Positions(pipeline, i, c), PositionsIn(es, i, j, c);
      assert At(index, c) == before + here;
      assert PositionsIn(es, i, j + 1, c) == here + (if commit == c then [(i, j)] else []);
      assert before + (here + [(i, j)]) == (before + here) + [(i, j)];
    }
  }

  lemma IndexPartEnds(index: Index, pipeline: seq<Queue>, i: nat)
    requires i < |pipeline|
    ensures Indexes(index, pipeline, i) ==> IndexesPart(index, pipeline, i, 0)
    ensures IndexesPart(index, pipeline, i, |pipeline[i].entries|) ==> Indexes(index, pipeline, i + 1)
  {
    forall c
      ensures Positions(pipeline, i, c) + PositionsIn(pipeline[i].entries, i, 0, c) == Positions(pipeline, i, c)
    {
    }
  }

  /** The inner loop: the jobs of queue `i` are added to the index. */
  method IndexQueue(index0: Index, pipeline: seq<Queue>, i: nat) returns (index: Index)
    requires i < |pipeline| && Indexes(index0, pipeline, i)
    ensures Indexes(index, pipeline, i + 1)
  {
    index := index0;
    IndexPartEnds(index, pipeline, i);
    for j := 0 to |pipeline[i].entries|
      invariant IndexesPart(index, pipeline, i, j)
    {
      IndexOneMore(index, pipeline, i, j);
      var commit := pipeline[i].entries[j].job.pub.commitId;
      index := index[commit := At(index, commit) + [(i, j)]];
    }
    IndexPartEnds(index, pipeline, i);
  }

  // ---- The queues as objects

  datatype ConfigError =
    | NoQueues
    | DuplicateName(name: string)
    | EmptyStopStart
    | SeveralInactive
    | InactiveNotLast
    | ExtraQueueNotInactive

  class RunQueues {
    const pipeline: seq<RunQueue>
    const erroneous: RunQueue?
    const done: RunQueue?

    constructor (pipeline: seq<RunQueue>, erroneous: RunQueue?, done: RunQueue?)
      requires forall i, j :: 0 <= i < j < |pipeline| ==> pipeline[i] != pipeline[j]
      requires erroneous !in pipeline && done !in pipeline && (erroneous != null ==> erroneous != done)
      ensures this.pipeline == pipeline && this.erroneous == erroneous && this.done == done && Valid()
    {
      this.pipeline, this.erroneous, this.done := pipeline, erroneous, done;
    }

    /** The queues are distinct directories. */
    ghost predicate Valid() {
      && (forall i, j :: 0 <= i < j < |pipeline| ==> pipeline[i] != pipeline[j])
      && erroneous !in pipeline && done !in pipeline && (erroneous != null ==> erroneous != done)
    }

    ghost function All(): set<RunQueue> {
      (set q | q in pipeline) + (if erroneous != null then {erroneous} else {}) + (if done != null then {done} else {})
    }

    ghost function Snapshot(): Queues
      reads All()
    {
      Queues(seq(|pipeline|, i requires 0 <= i < |pipeline| reads All() =>
               Queue(pipeline[i].condition, pipeline[i].entries)),
             EntriesOf(erroneous), EntriesOf(done))
    }

    /** Loads a copy of the queues and indexes it. */
    method Data() returns (r: Result<RunQueuesData, DataError>)
      ensures r.Failure? <==>
        exists i :: 0 <= i < |pipeline| && pipeline[i].condition.Inactive? && pipeline[i].entries != []
      ensures r.Success? ==> r.value.Valid() && r.value.pipeline == Snapshot().pipeline
    {
      var loaded: seq<Queue> := [];
      for i := 0 to |pipeline|
        invariant loaded == Snapshot().pipeline[..i]
      {
        loaded := loaded + [Queue(pipeline[i].condition, pipeline[i].entries)];
      }
      assert loaded == Snapshot().pipeline;
      assert forall i :: 0 <= i < |pipeline| ==> loaded[i] == Queue(pipeline[i].condition, pipeline[i].entries);
      r := BuildData(loaded);
    }

    /** Runs the job of entry `e` in queue `i`. */
    method RunAt(i: nat, e: Entry, succeeded: bool, wd: WorkingDirectoryId, now: TimeKey)
      returns (r: Result<JobStatus, QueueError>)
      requires Valid() && i < |pipeline| && !pipeline[i].condition.Inactive?
      modifies All()
      ensures
        var after := AfterRun(pipeline[i].condition, AroundOf(old(Snapshot()), i), e, succeeded, wd, now);
        && Snapshot() == (if after.Success? then WithAround(old(Snapshot()), i, after.value.0) else old(Snapshot()))
        && r == if after.Success? then Success(after.value.1) else Failure(after.error)
    {
      ghost var before := Snapshot();
      var next := if i + 1 < |pipeline| then pipeline[i + 1] else null;
      var rq := new RunQueueWithNext(pipeline[i], next, erroneous, done);
      assert rq.Queues() <= All();
      ghost var around := rq.Abs();
      assert around == AroundOf(before, i);
      assert WithAround(before, i, around) == before;
      r := rq.RunJob(e, succeeded, wd, now);
      SnapshotAfter(rq, i);
    }

    /** Changing the queues around queue `i` changes the snapshot there and nowhere else. */
    twostate lemma SnapshotAfter(new rq: RunQueueWithNext, i: nat)
      requires Valid() && i < |pipeline| && rq.current == pipeline[i]
      requires rq.next == (if i + 1 < |pipeline| then pipeline[i + 1] else null)
      requires rq.erroneous == erroneous && rq.done == done
      requires forall q :: q in All() && q !in rq.Queues() ==> q.entries == old(q.entries)
      ensures Snapshot() == WithAround(old(Snapshot()), i, rq.Abs())
    {
      var updated := WithAround(old(Snapshot()), i, rq.Abs());
      forall k | 0 <= k < |pipeline|
        ensures Snapshot().pipeline[k] == updated.pipeline[k]
      {
        assert k != i && k != i + 1 ==> pipeline[k] !in rq.Queues();
      }
    }

    /**
     Runs the most prioritized job of the loaded data, unless it has disappeared from its queue in the
     mean time.
     */
    method RunNextJob(
        data: RunQueuesData, cal: Calendar, t: Time, succeeded: bool, wd: WorkingDirectoryId, now: TimeKey)
      returns (r: Result<Option<(Job, JobStatus)>, QueueError>)
      requires Valid() && |data.pipeline| == |pipeline|
      requires forall i :: 0 <= i < |pipeline| ==> data.pipeline[i].condition == pipeline[i].condition
      modifies All()
      ensures
        var choice := MostPrioritized(data.pipeline, cal, t, |data.pipeline|);
        if choice.None? then
          Snapshot() == old(Snapshot()) && r == Success(None)
        else
          var i, e := choice.value.0, data.pipeline[choice.value.0].entries[choice.value.1];
          if !HasKey(old(Snapshot()).pipeline[i].entries, e.key) then
            Snapshot() == old(Snapshot()) && r == Success(None)
          else
            var after := AfterRun(pipeline[i].condition, AroundOf(old(Snapshot()), i), e, succeeded, wd, now);
            if after.Failure? then
              Snapshot() == old(Snapshot()) && r == Failure(after.error)
            else
              Snapshot() == WithAround(old(Snapshot()), i, after.value.0) && r == Success(Some((e.job, after.value.1)))
    {
      var choice := MostPrioritized(data.pipeline, cal, t, |data.pipeline|);
      if choice.None? {
        return Success(None);
      }
      var (i, j) := choice.value;
      var e := data.pipeline[i].entries[j];
      if !HasKey(pipeline[i].entries, e.key) {
        return Success(None);
      }
      var status := RunAt(i, e, succeeded, wd, now);
      return if status.Success? then Success(Some((e.job, status.value))) else Failure(status.error);
    }

    ghost predicate WellConfigured() {
      && pipeline != []
      && (forall i, j :: 0 <= i < j < |pipeline| ==> pipeline[i].fileName != pipeline[j].fileName)
      && (forall i :: 0 <= i < |pipeline| ==> pipeline[i].condition.LocalNaiveTimeWindow? ==>
           pipeline[i].condition.stopStart != Some([]))
      && (forall i :: 0 <= i < |pipeline| - 1 ==> !pipeline[i].condition.Inactive?)
      && (erroneous != null ==>
            && erroneous.condition.Inactive?
            && forall i :: 0 <= i < |pipeline| ==> pipeline[i].fileName != erroneous.fileName)
      && (done != null ==>
            && done.condition.Inactive?
            && forall i :: 0 <= i < |pipeline| ==> pipeline[i].fileName != done.fileName)
      && (erroneous != null && done != null ==> erroneous.fileName != done.fileName)
    }

    method CheckExtraQueue(seen0: set<string>, q: RunQueue?) returns (r: Option<ConfigError>, seen: set<string>)
      ensures r.None? <==> (q != null ==> q.fileName !in seen0 && q.condition.Inactive?)
      ensures r.None? ==> seen == seen0 + (if q != null then {q.fileName} else {})
    {
      seen := seen0;
      if q != null {
        if q.fileName in seen {
          return Some(DuplicateName(q.fileName)), seen;
        }
        seen := seen + {q.fileName};
        if !q.condition.Inactive? {
          return Some(ExtraQueueNotInactive), seen;
        }
      }
      return None, seen;
    }

    method CheckRunQueues() returns (r: Option<ConfigError>)
      ensures r.None? <==> WellConfigured()
    {
      if pipeline == [] {
        return Some(NoQueues);
      }
      var seen: set<string> := {};
      var inactiveCount := 0;
      var i := 0;
      while i < |pipeline|
        invariant 0 <= i <= |pipeline|
        invariant seen == set k | 0 <= k < i :: pipeline[k].fileName
        invariant forall k, l :: 0 <= k < l < i ==> pipeline[k].fileName != pipeline[l].fileName
        invariant forall k :: 0 <= k < i ==>
          pipeline[k].condition.LocalNaiveTimeWindow? ==> pipeline[k].condition.stopStart != Some([])
        invariant inactiveCount == 0 <==> forall k :: 0 <= k < i ==> !pipeline[k].condition.Inactive?
        invariant inactiveCount >= 0
        invariant forall k :: 0 <= k < i && pipeline[k].condition.Inactive? && inactiveCount == 1 ==>
          forall l :: 0 <= l < i && l != k ==> !pipeline[l].condition.Inactive?
        invariant inactiveCount > 1 ==>
          exists k, l :: 0 <= k < l < i && pipeline[k].condition.Inactive? && pipeline[l].condition.Inactive?
      {
        if pipeline[i].fileName in seen {
          return Some(DuplicateName(pipeline[i].fileName));
        }
        seen := seen + {pipeline[i].fileName};
        match pipeline[i].condition {
          case Immediately(_) =>
          case LocalNaiveTimeWindow(_, _, stopStart, _, _, _, _) =>
            if stopStart.Some? {
              if stopStart.value == [] {
                return Some(EmptyStopStart);
              }
            }
          case Inactive => inactiveCount := inactiveCount + 1;
        }
        i := i + 1;
      }
      if inactiveCount > 1 {
        return Some(SeveralInactive);
      }
      if inactiveCount > 0 {
        if !pipeline[|pipeline| - 1].condition.Inactive? {
          return Some(InactiveNotLast);
        }
      }
      r, seen := CheckExtraQueue(seen, erroneous);
      if r.None? {
        r, seen := CheckExtraQueue(seen, done);
      }
    }
  }
}
