/** Which directory of a full pool is given up, and whether it is the least recently used one. */
module Eviction {
  import opened Wrappers
  import opened Jobs
  import opened RunQueues
  import opened TimeKeys
  import RunQueue
  import Scheduler
  import opened WorkingDirectoryPool

  // ---- The true time of the last use

  function CloneOf(op: Op): Option<Cloned> {
    match op
    case OpGetFirst(clone) => clone
    case OpGetFor(_, _, clone) => clone
    case _ => None
  }

  /** The directory in which the operation runs an action, or that it creates. */
  function UsedBy(t: State, op: Op, capacity: nat): Option<WorkingDirectoryId>
    requires capacity >= 1
  {
    match op
    case OpProcess(id, _) =>
      if HasId(t.entries, id) && DirOf(t.entries, id).status.CanBeUsedForJobs() then Some(id) else None
    case OpDelete(_) => None
    case _ => if |Next(t, op, capacity).entries| > |t.entries| then Some(t.nextId) else None
  }

  type Uses = seq<Option<WorkingDirectoryId>>

  /** For each operation of a run the directory that it uses. */
  function UsesOf(s: State, ops: seq<Op>, capacity: nat): (r: Uses)
    requires capacity >= 1
    ensures |r| == |ops|
  {
    if ops == [] then []
    else
      var front := ops[..|ops| - 1];
      UsesOf(s, front, capacity) + [UsedBy(Run(s, front, capacity), ops[|ops| - 1], capacity)]
  }

  /**
   When the directory was used last; `clock` gives the time of each operation. At first that is the
   recorded time: when the pool is opened, it is read from the status file, which each use writes.
   */
  function LastUse(s: State, uses: Uses, clock: nat -> nat, id: WorkingDirectoryId): nat {
    if uses == [] then
      if HasId(s.entries, id) then DirOf(s.entries, id).lastUse else 0
    else
      var n := |uses| - 1;
      if uses[n] == Some(id) then clock(n) else LastUse(s, uses[..n], clock, id)
  }

  ghost predicate RecordedBefore(s: State, time: nat) {
    0 < time && forall e :: e in s.entries ==> e.dir.lastUse < time
  }

  /** The clock goes forward, and what is cloned is recorded with the time of that. */
  ghost predicate Clocked(s: State, ops: seq<Op>, clock: nat -> nat) {
    && (forall j: nat, k: nat :: j < k < |ops| ==> clock(j) < clock(k))
    && (forall k: nat :: k < |ops| ==> RecordedBefore(s, clock(k)))
    && (forall k: nat :: k < |ops| && CloneOf(ops[k]).Some? ==> CloneOf(ops[k]).value.time == clock(k))
  }

  /** No active directory was used earlier. */
  ghost predicate IsLeastRecentlyUsed(s: State, ops: seq<Op>, clock: nat -> nat, capacity: nat, id: WorkingDirectoryId)
    requires capacity >= 1
  {
    var uses := UsesOf(s, ops, capacity);
    forall f :: f in Run(s, ops, capacity).entries && f.Active() ==>
      LastUse(s, uses, clock, id) <= LastUse(s, uses, clock, f.id)
  }

  // ---- What can be seen from the operations

  /** An action was run in the directory. */
  predicate ProcessedIn(ops: seq<Op>, uses: Uses, id: WorkingDirectoryId)
    requires |uses| == |ops|
  {
    exists k :: 0 <= k < |ops| && ops[k].OpProcess? && uses[k] == Some(id)
  }

  /** `f` was used, and from then on `e` was not. */
  predicate UsedAfter(uses: Uses, f: WorkingDirectoryId, e: WorkingDirectoryId) {
    exists k :: 0 <= k < |uses| && uses[k] == Some(f) && forall j :: k <= j < |uses| ==> uses[j] != Some(e)
  }

  lemma {:induction false} UsedBefore(s: State, uses: Uses, clock: nat -> nat, id: WorkingDirectoryId, time: nat)
    requires RecordedBefore(s, time) && forall k: nat :: k < |uses| ==> clock(k) < time
    ensures LastUse(s, uses, clock, id) < time
  {
    if uses != [] {
      UsedBefore(s, uses[..|uses| - 1], clock, id, time);
    } else if HasId(s.entries, id) {
      assert Entry(id, DirOf(s.entries, id)) in s.entries;
    }
  }

  ghost predicate Increasing(s: State, n: nat, clock: nat -> nat) {
    && (forall j: nat, k: nat :: j < k < n ==> clock(j) < clock(k))
    && (forall k: nat :: k < n ==> RecordedBefore(s, clock(k)))
  }

  /** The directory of the last operation was used later than all others. */
  lemma LastUsedIsLatest(s: State, uses: Uses, clock: nat -> nat, id: WorkingDirectoryId, f: WorkingDirectoryId)
    requires uses != [] && uses[|uses| - 1] == Some(id) && f != id && Increasing(s, |uses|, clock)
    ensures LastUse(s, uses, clock, f) < LastUse(s, uses, clock, id)
    ensures !UsedAfter(uses, f, id) && UsedAfter(uses, id, f)
  {
    var n := |uses| - 1;
    UsedBefore(s, uses[..n], clock, f, clock(n));
    assert uses[n] == Some(id) && forall j :: n <= j < |uses| ==> uses[j] != Some(f);
  }

  lemma UsedAfterPrefix(uses: Uses, f: WorkingDirectoryId, e: WorkingDirectoryId)
    requires uses != [] && uses[|uses| - 1] != Some(e) && uses[|uses| - 1] != Some(f)
    ensures UsedAfter(uses, f, e) <==> UsedAfter(uses[..|uses| - 1], f, e)
  {
    var front := uses[..|uses| - 1];
    if UsedAfter(uses, f, e) {
      var k :| 0 <= k < |uses| && uses[k] == Some(f) && forall j :: k <= j < |uses| ==> uses[j] != Some(e);
      assert front[k] == Some(f) && forall j :: k <= j < |front| ==> front[j] != Some(e);
    }
    if UsedAfter(front, f, e) {
      var k :| 0 <= k < |front| && front[k] == Some(f) && forall j :: k <= j < |front| ==> front[j] != Some(e);
      assert forall j :: 0 <= j < |front| ==> uses[j] == front[j];
    }
  }

  /** Of a directory that was used: another one was used later exactly if the operations say so. */
  lemma {:induction false} LaterExactlyIfUsedAfter(
      s: State, uses: Uses, clock: nat -> nat, e: WorkingDirectoryId, f: WorkingDirectoryId)
    requires Increasing(s, |uses|, clock) && e != f && Some(e) in uses
    ensures LastUse(s, uses, clock, e) <= LastUse(s, uses, clock, f) <==> UsedAfter(uses, f, e)
  {
    var n := |uses| - 1;
    if uses[n] == Some(e) {
      LastUsedIsLatest(s, uses, clock, e, f);
    } else if uses[n] == Some(f) {
      LastUsedIsLatest(s, uses, clock, f, e);
    } else {
      UsedAfterPrefix(uses, f, e);
      LaterExactlyIfUsedAfter(s, uses[..n], clock, e, f);
    }
  }

  // ---- What an operation does to the recorded times

  lemma HasEntry(t: State, e: Entry)
    requires Consistent(t) && e in t.entries
    ensures HasId(t.entries, e.id) && DirOf(t.entries, e.id) == e.dir && e.id < t.nextId
  {
    var i :| 0 <= i < |t.entries| && t.entries[i] == e;
    DirOfEach(t.entries, e.id, i);
  }

  /** The entry has the time that was recorded before, or it is a new clone. */
  ghost predicate IsOldOrCloned(t: State, clone: Option<Cloned>, e: Entry) {
    if HasId(t.entries, e.id) then e.dir.lastUse == DirOf(t.entries, e.id).lastUse
    else clone.Some? && e.dir.lastUse == clone.value.time && e.id == t.nextId
  }

  lemma ProcessTimes(t: State, k: WorkingDirectoryId, action: Action, e: Entry)
    requires Consistent(t) && e in Process(t, k, action).0.entries
    ensures HasId(t.entries, e.id) && e.dir.lastUse == DirOf(t.entries, e.id).lastUse
  {
    var es := Process(t, k, action).0.entries;
    var i :| 0 <= i < |es| && es[i] == e;
    DirOfEach(t.entries, e.id, i);
  }

  lemma CloneTimes(t: State, clone: Option<Cloned>, e: Entry)
    requires Consistent(t) && (e in t.entries || e in NewDirectory(t, clone).0.entries)
    ensures IsOldOrCloned(t, clone, e)
  {
    if e in t.entries {
      HasEntry(t, e);
    } else if HasId(t.entries, e.id) {
      UsedIsOld(t, e.id);
    }
  }

  lemma RecordedTimes(t: State, op: Op, capacity: nat, e: Entry)
    requires Consistent(t) && capacity >= 1 && e in Next(t, op, capacity).entries
    ensures IsOldOrCloned(t, CloneOf(op), e)
    ensures !HasId(t.entries, e.id) ==> UsedBy(t, op, capacity) == Some(e.id)
    ensures HasId(t.entries, e.id) && UsedBy(t, op, capacity) == Some(e.id) ==> op.OpProcess?
  {
    match op
    case OpProcess(k, action) =>
      ProcessTimes(t, k, action, e);
    case OpDelete(k) =>
      HasEntry(t, e);
    case OpGetFirst(clone) =>
      FirstDirectoryKeeps(t, clone);
      CloneTimes(t, clone, e);
      OldIdIsNotNext(t, e.id);
    case OpGetFor(commit, data, clone) =>
      GetForKeeps(t, commit, data, capacity, clone);
      CloneTimes(t, clone, e);
      OldIdIsNotNext(t, e.id);
  }

  lemma OldIdIsNotNext(t: State, id: WorkingDirectoryId)
    requires Consistent(t)
    ensures HasId(t.entries, id) ==> id < t.nextId
  {
    if HasId(t.entries, id) {
      UsedIsOld(t, id);
    }
  }

  // ---- What is recorded, and what is true

  lemma ProcessedInPrefix(ops: seq<Op>, uses: Uses, id: WorkingDirectoryId)
    requires |uses| == |ops| && ops != []
    ensures ProcessedIn(ops, uses, id) <==>
      ((ops[|ops| - 1].OpProcess? && uses[|ops| - 1] == Some(id))
       || ProcessedIn(ops[..|ops| - 1], uses[..|ops| - 1], id))
  {
    var n := |ops| - 1;
    if ProcessedIn(ops[..n], uses[..n], id) {
      var k :| 0 <= k < n && ops[..n][k].OpProcess? && uses[..n][k] == Some(id);
      assert ops[k].OpProcess? && uses[k] == Some(id);
    }
    if ProcessedIn(ops, uses, id) {
      var k :| 0 <= k < |ops| && ops[k].OpProcess? && uses[k] == Some(id);
      assert k < n ==> ops[..n][k].OpProcess? && uses[..n][k] == Some(id);
    }
  }

  lemma ClockedPrefix(s: State, ops: seq<Op>, clock: nat -> nat, n: nat)
    requires Clocked(s, ops, clock) && n <= |ops|
    ensures Clocked(s, ops[..n], clock)
  {
    forall k: nat | k < n
      ensures CloneOf(ops[..n][k]).Some? ==> CloneOf(ops[..n][k]).value.time == clock(k)
    {
      assert ops[..n][k] == ops[k];
    }
  }

  /** The recorded time is never later than the true one, and the true one until an action is run. */
  lemma {:induction false} RecordedIsNotLater(s: State, ops: seq<Op>, clock: nat -> nat, capacity: nat, e: Entry)
    requires Consistent(s) && Clocked(s, ops, clock) && capacity >= 1 && e in Run(s, ops, capacity).entries
    ensures
      var uses := UsesOf(s, ops, capacity);
      && e.dir.lastUse <= LastUse(s, uses, clock, e.id)
      && (!ProcessedIn(ops, uses, e.id) ==> e.dir.lastUse == LastUse(s, uses, clock, e.id))
  {
    if ops == [] {
      HasEntry(s, e);
    } else {
      var n, uses := |ops| - 1, UsesOf(s, ops, capacity);
      var front, t := UsesOf(s, ops[..n], capacity), Run(s, ops[..n], capacity);
      assert uses[..n] == front;
      RunKeeps(s, ops[..n], capacity);
      ClockedPrefix(s, ops, clock, n);
      RecordedTimes(t, ops[n], capacity, e);
      ProcessedInPrefix(ops, uses, e.id);
      if HasId(t.entries, e.id) {
        RecordedIsNotLater(s, ops[..n], clock, capacity, Entry(e.id, DirOf(t.entries, e.id)));
        UsedBefore(s, front, clock, e.id, clock(n));
      }
    }
  }

  // ---- The theorem

  lemma FullPoolGives(t: State, op: Op, capacity: nat)
    requires op.OpGetFor? && 1 <= capacity <= |ActiveEntries(t.entries)|
    requires TryGetFitting(t, op.commit, op.data).None?
    ensures Given(t, op, capacity) == Some(LeastRecent(ActiveEntries(t.entries)).id)
  {
    var OpGetFor(commit, data, clone) := op;
    assert GetFor(t, commit, data, capacity, clone) == (t, Success(LeastRecent(ActiveEntries(t.entries)).id));
  }

  /** When no action was run in the entry with the earliest recorded use, that is the true one. */
  lemma UnprocessedIsLeastRecentlyUsed(
      s: State, ops: seq<Op>, clock: nat -> nat, capacity: nat, e: Entry)
    requires Consistent(s) && Clocked(s, ops, clock) && capacity >= 1 && e in Run(s, ops, capacity).entries
    requires forall f :: f in ActiveEntries(Run(s, ops, capacity).entries) ==> e.dir.lastUse <= f.dir.lastUse
    requires !ProcessedIn(ops, UsesOf(s, ops, capacity), e.id)
    ensures IsLeastRecentlyUsed(s, ops, clock, capacity, e.id)
  {
    var uses := UsesOf(s, ops, capacity);
    RecordedIsNotLater(s, ops, clock, capacity, e);
    forall f | f in Run(s, ops, capacity).entries && f.Active()
      ensures LastUse(s, uses, clock, e.id) <= LastUse(s, uses, clock, f.id)
    {
      RecordedIsNotLater(s, ops, clock, capacity, f);
    }
  }

  /**
   A job that no directory fits gets, in a full pool, the directory with the earliest recorded use. That
   is the least recently used one if and only if no action was run in it since the pool was opened, or
   every other active directory has been used since the last use of it.
   */
  lemma EvictsLeastRecentlyUsedExactly(s: State, ops: seq<Op>, clock: nat -> nat, capacity: nat, op: Op)
    requires Consistent(s) && Clocked(s, ops, clock) && op.OpGetFor?
    requires 1 <= capacity <= |ActiveEntries(Run(s, ops, capacity).entries)|
    requires TryGetFitting(Run(s, ops, capacity), op.commit, op.data).None?
    ensures
      var t, uses := Run(s, ops, capacity), UsesOf(s, ops, capacity);
      var id := LeastRecent(ActiveEntries(t.entries)).id;
      && Given(t, op, capacity) == Some(id)
      && (IsLeastRecentlyUsed(s, ops, clock, capacity, id)
          <==> (!ProcessedIn(ops, uses, id)
                || forall f :: f in t.entries && f.Active() && f.id != id ==> UsedAfter(uses, f.id, id)))
  {
    var t, uses := Run(s, ops, capacity), UsesOf(s, ops, capacity);
    var e := LeastRecent(ActiveEntries(t.entries));
    FullPoolGives(t, op, capacity);
    if ProcessedIn(ops, uses, e.id) {
      forall f | f in t.entries && f.Active() && f.id != e.id
        ensures LastUse(s, uses, clock, e.id) <= LastUse(s, uses, clock, f.id) <==> UsedAfter(uses, f.id, e.id)
      {
        LaterExactlyIfUsedAfter(s, uses, clock, e.id, f.id);
      }
    } else {
      UnprocessedIsLeastRecentlyUsed(s, ops, clock, capacity, e);
    }
  }

  // ---- How it goes wrong

  /** Processing does not change which directory is given up. */
  lemma ProcessKeepsChoice(t: State, id: WorkingDirectoryId, action: Action)
    requires Consistent(t) && action.succeeds && ActiveEntries(t.entries) != []
    ensures
      var t' := Process(t, id, action).0;
      && |ActiveEntries(t'.entries)| == |ActiveEntries(t.entries)|
      && LeastRecent(ActiveEntries(t'.entries)).id == LeastRecent(ActiveEntries(t.entries)).id
  {
    var t' := Process(t, id, action).0;
    ProcessKeepsTimes(t, id, action);
    SameActive(t.entries, t'.entries);
    SameLeastRecent(ActiveEntries(t.entries), ActiveEntries(t'.entries));
  }

  lemma GivenUpAgain(t: State, capacity: nat, id: WorkingDirectoryId, action: Action, op: Op)
    requires Consistent(t) && action.succeeds && op.OpGetFor? && 1 <= capacity <= |ActiveEntries(t.entries)|
    requires id == LeastRecent(ActiveEntries(t.entries)).id
    requires TryGetFitting(Process(t, id, action).0, op.commit, op.data).None?
    ensures Given(Process(t, id, action).0, op, capacity) == Some(id)
  {
    ProcessKeepsChoice(t, id, action);
    FullPoolGives(Process(t, id, action).0, op, capacity);
  }

  lemma ActiveIsUsed(t: State, capacity: nat, e: Entry, action: Action)
    requires Consistent(t) && e in ActiveEntries(t.entries) && capacity >= 1
    ensures UsedBy(t, OpProcess(e.id, action), capacity) == Some(e.id)
  {
    HasEntry(t, e);
  }

  lemma RunSnoc(s: State, ops: seq<Op>, capacity: nat, op: Op)
    requires capacity >= 1
    ensures Run(s, ops + [op], capacity) == Next(Run(s, ops, capacity), op, capacity)
    ensures UsesOf(s, ops + [op], capacity)
         == UsesOf(s, ops, capacity) + [UsedBy(Run(s, ops, capacity), op, capacity)]
  {
    assert (ops + [op])[..|ops|] == ops;
  }

  lemma LastUsedIsLatestOfAll(s: State, uses: Uses, clock: nat -> nat, id: WorkingDirectoryId)
    requires uses != [] && uses[|uses| - 1] == Some(id) && Increasing(s, |uses|, clock)
    ensures forall f: WorkingDirectoryId :: f != id ==> LastUse(s, uses, clock, f) < LastUse(s, uses, clock, id)
  {
    forall f: WorkingDirectoryId | f != id
      ensures LastUse(s, uses, clock, f) < LastUse(s, uses, clock, id)
    {
      LastUsedIsLatest(s, uses, clock, id, f);
    }
  }

  /**
   A directory that is given up for a job, and in which that job then succeeds, is given up again for
   the next job that no directory fits: the one that was used last of all.
   */
  lemma EvictedIsEvictedAgain(
      s: State, ops: seq<Op>, clock: nat -> nat, capacity: nat, id: WorkingDirectoryId, action: Action, op: Op)
    requires Consistent(s) && Clocked(s, ops + [OpProcess(id, action)], clock) && action.succeeds && op.OpGetFor?
    requires 1 <= capacity <= |ActiveEntries(Run(s, ops, capacity).entries)|
    requires id == LeastRecent(ActiveEntries(Run(s, ops, capacity).entries)).id
    requires TryGetFitting(Run(s, ops + [OpProcess(id, action)], capacity), op.commit, op.data).None?
    ensures
      var ops' := ops + [OpProcess(id, action)];
      var uses := UsesOf(s, ops', capacity);
      && Given(Run(s, ops', capacity), op, capacity) == Some(id)
      && forall f: WorkingDirectoryId :: f != id ==> LastUse(s, uses, clock, f) < LastUse(s, uses, clock, id)
  {
    RunSnoc(s, ops, capacity, OpProcess(id, action));
    RunKeeps(s, ops, capacity);
    var t := Run(s, ops, capacity);
    GivenUpAgain(t, capacity, id, action, op);
    ActiveIsUsed(t, capacity, LeastRecent(ActiveEntries(t.entries)), action);
    LastUsedIsLatestOfAll(s, UsesOf(s, ops + [OpProcess(id, action)], capacity), clock, id);
  }

  function OneQueue(a: CommitId, b: CommitId): seq<Scheduler.Queue> {
    var job := (commit: CommitId) => Job(JobPublic(None, commit, "", ""), JobState(1, 1, None), NORMAL, NORMAL);
    [Scheduler.Queue(
       Immediately(""), [RunQueue.Entry(TimeKey(1, 0, 0), job(a)), RunQueue.Entry(TimeKey(2, 0, 0), job(b))])]
  }

  function BothNeeded(): RunQueuesData {
    RunQueuesData(OneQueue("a", "b"), map["a" := [(0, 0)], "b" := [(0, 1)]])
  }

  lemma BothNeededIsIndexed()
    ensures BothNeeded().Valid()
  {
    var pipeline := OneQueue("a", "b");
    var es := pipeline[0].entries;
    forall c
      ensures At(BothNeeded().jobsByCommitId, c) == Positions(pipeline, 1, c)
    {
      assert PositionsIn(es, 0, 1, c) == if c == "a" then [(0, 0)] else [];
      assert PositionsIn(es, 0, 2, c) == PositionsIn(es, 0, 1, c) + if c == "b" then [(0, 1)] else [];
      assert Positions(pipeline, 0, c) == [];
    }
  }

  function Used(commit: CommitId, numRuns: nat, time: nat): Dir {
    Dir(commit, Finished, numRuns, time, Some((Finished, numRuns)), false)
  }

  /** Two directories, used at times 1 and 2. */
  function TwoUsed(numRuns: nat): State {
    State(2, [Entry(0, Used("a", numRuns, 1)), Entry(1, Used("b", 1, 2))])
  }

  lemma FirstIsUsedAgain()
    ensures Process(TwoUsed(1), 0, Action(None, true)).0 == TwoUsed(2)
    ensures DirOf(TwoUsed(1).entries, 0) == Used("a", 1, 1) && DirOf(TwoUsed(1).entries, 1) == Used("b", 1, 2)
    ensures HasId(TwoUsed(1).entries, 0) && HasId(TwoUsed(1).entries, 1)
  {
    var s := TwoUsed(1);
    DirOfEach(s.entries, 0, 0);
    DirOfEach(s.entries, 1, 1);
    var t := Process(s, 0, Action(None, true)).0;
    assert t.entries == [Entry(0, Used("a", 2, 1)), Entry(1, Used("b", 1, 2))];
  }

  lemma {:induction false} AllActive(es: Entries)
    requires forall e :: e in es ==> e.Active()
    ensures ActiveEntries(es) == es
  {
    if es != [] {
      var front, last := es[..|es| - 1], es[|es| - 1];
      assert last in es && last.Active();
      AllActive(front);
      assert es == front + [last];
    }
  }

  lemma {:induction false} NoneFit(es: Entries, commit: CommitId, data: RunQueuesData)
    requires forall e :: e in es ==> e.dir.commit != commit && data.HaveJobWithCommitId(e.dir.commit)
    ensures WithCommit(es, commit) == [] && Obsolete(es, data) == []
  {
    if es != [] {
      NoneFit(es[..|es| - 1], commit, data);
    }
  }

  lemma BothHaveJobs()
    ensures BothNeeded().HaveJobWithCommitId("a") && BothNeeded().HaveJobWithCommitId("b")
  {
  }

  lemma NothingFitsIn(es: Entries, data: RunQueuesData)
    requires forall e :: e in es ==> e.Active() && (e.dir.commit == "a" || e.dir.commit == "b")
    requires data.HaveJobWithCommitId("a") && data.HaveJobWithCommitId("b")
    ensures ActiveEntries(es) == es && WithCommit(es, "c") == [] && Obsolete(es, data) == []
  {
    AllActive(es);
    NoneFit(es, "c", data);
  }

  lemma NothingFits()
    ensures var t := TwoUsed(2);
      ActiveEntries(t.entries) == t.entries && TryGetFitting(t, "c", BothNeeded()).None?
  {
    BothHaveJobs();
    NothingFitsIn(TwoUsed(2).entries, BothNeeded());
  }

  lemma RunOfOne(s: State, op: Op, capacity: nat)
    requires capacity >= 1
    ensures Run(s, [op], capacity) == Next(s, op, capacity)
    ensures UsesOf(s, [op], capacity) == [UsedBy(s, op, capacity)]
  {
    assert [op][..0] == [];
  }

  lemma FirstIsUsedLast(clock: nat -> nat)
    requires clock(0) == 3
    ensures var s, ops := TwoUsed(1), [OpProcess(0, Action(None, true))];
      && Consistent(s) && Clocked(s, ops, clock) && Run(s, ops, 2) == TwoUsed(2)
      && LastUse(s, UsesOf(s, ops, 2), clock, 0) == 3 && LastUse(s, UsesOf(s, ops, 2), clock, 1) == 2
  {
    FirstIsUsedAgain();
    RunOfOne(TwoUsed(1), OpProcess(0, Action(None, true)), 2);
    OneUse(TwoUsed(1), clock, 0, 1);
  }

  lemma OneUse(s: State, clock: nat -> nat, id: WorkingDirectoryId, f: WorkingDirectoryId)
    requires f != id && HasId(s.entries, f)
    ensures LastUse(s, [Some(id)], clock, id) == clock(0)
    ensures LastUse(s, [Some(id)], clock, f) == DirOf(s.entries, f).lastUse
  {
    assert [Some(id)][..0] == [];
  }

  /** In a pool of two whose commits are both needed, the first directory is used again, and then given up. */
  lemma MostRecentlyUsedIsEvicted()
    ensures
      var s, ops, clock := TwoUsed(1), [OpProcess(0, Action(None, true))], (k: nat) => k + 3;
      var op, t, uses := OpGetFor("c", BothNeeded(), None), Run(s, ops, 2), UsesOf(s, ops, 2);
      && Consistent(s) && Clocked(s, ops, clock) && BothNeeded().Valid()
      && |ActiveEntries(t.entries)| == 2 && Given(t, op, 2) == Some(0)
      && LastUse(s, uses, clock, 0) == 3 && LastUse(s, uses, clock, 1) == 2
  {
    BothNeededIsIndexed();
    FirstIsUsedLast((k: nat) => k + 3);
    NothingFits();
    FullPoolGives(TwoUsed(2), OpGetFor("c", BothNeeded(), None), 2);
  }
}
