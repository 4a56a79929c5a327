module Checkouts {
  // Which commit a working directory is at, how often it was used, and that a job's checkout is found again.

  import opened Wrappers
  import opened Jobs
  import opened RunQueues
  import opened WorkingDirectoryPool
  import opened Eviction

  // ---- One action

  /**
   After an action in an active directory: it is at the commit that the action checked out, if it did, and
   else where it was; one more run is counted unless one was under way; the status says how it ended, in
   memory and in the file; and no other directory has changed.
   */
  lemma ProcessedDirectory(s: State, id: WorkingDirectoryId, action: Action)
    requires Consistent(s) && ActiveId(s.entries, id)
    ensures
      var (t, r) := Process(s, id, action);
      && HasId(s.entries, id) && HasId(t.entries, id) && t.nextId == s.nextId && |t.entries| == |s.entries|
      && (r.Success? <==> action.succeeds)
      && (forall i :: 0 <= i < |s.entries| && s.entries[i].id != id ==> t.entries[i] == s.entries[i])
      && var before, after := DirOf(s.entries, id), DirOf(t.entries, id);
         && after.commit == (if action.checkout.Some? then action.checkout.value else before.commit)
         && after.numRuns == before.numRuns + (if before.status.Processing? then 0 else 1)
         && after.status == (if action.succeeds then Finished else Error)
         && after.lastUse == before.lastUse
         && after.file == Some((after.status, after.numRuns))
  {
    var t := Process(s, id, action).0;
    var e :| e in s.entries && e.id == id && e.Active();
    var i :| 0 <= i < |s.entries| && s.entries[i] == e;
    DirOfEach(s.entries, id, i);
    ProcessKeeps(s, id, action);
    DirOfEach(t.entries, id, i);
    ProcessedFields(e.dir, action);
  }

  lemma ProcessedFields(d: Dir, action: Action)
    ensures
      var after := Processed(d, action);
      && after.commit == (if action.checkout.Some? then action.checkout.value else d.commit)
      && after.numRuns == d.numRuns + (if d.status.Processing? then 0 else 1)
      && after.status == (if action.succeeds then Finished else Error)
      && after.lastUse == d.lastUse && after.file == Some((after.status, after.numRuns))
  {
  }

  /** A new directory is at the commit that was cloned, has not been used, and is usable. */
  lemma NewDirectoryFields(s: State, clone: Option<Cloned>)
    requires Consistent(s) && clone.Some?
    ensures
      var (t, r) := NewDirectory(s, clone);
      && r == Success(s.nextId) && HasId(t.entries, s.nextId) && t.entries[..|t.entries| - 1] == s.entries
      && var d := DirOf(t.entries, s.nextId);
         && d.commit == clone.value.commit && d.lastUse == clone.value.time
         && d.numRuns == 0 && d.status == CheckedOut && d.file == Some((CheckedOut, 0))
  {
    var t := NewDirectory(s, clone).0;
    NewDirectoryKeeps(s, clone);
    DirOfEach(t.entries, s.nextId, |s.entries|);
  }

  // ---- Over runs

  /** The commit that was last checked out in the directory, or cloned, or that it had at the start. */
  function LastCheckout(s: State, ops: seq<Op>, uses: Uses, id: WorkingDirectoryId): CommitId
    requires |uses| == |ops|
  {
    if ops == [] then
      if HasId(s.entries, id) then DirOf(s.entries, id).commit else ""
    else
      var n := |ops| - 1;
      if uses[n] != Some(id) then LastCheckout(s, ops[..n], uses[..n], id)
      else
        match ops[n]
        case OpProcess(_, action) =>
          if action.checkout.Some? then action.checkout.value else LastCheckout(s, ops[..n], uses[..n], id)
        case _ => if CloneOf(ops[n]).Some? then CloneOf(ops[n]).value.commit else ""
  }

  /** How many actions were run in the directory. */
  function ActionsIn(ops: seq<Op>, uses: Uses, id: WorkingDirectoryId): nat
    requires |uses| == |ops|
  {
    if ops == [] then 0
    else
      var n := |ops| - 1;
      ActionsIn(ops[..n], uses[..n], id) + if ops[n].OpProcess? && uses[n] == Some(id) then 1 else 0
  }

  /** The runs counted at the start, and whether one was under way then, as after a crash. */
  function RunsAtStart(s: State, id: WorkingDirectoryId): nat {
    if HasId(s.entries, id) then DirOf(s.entries, id).numRuns else 0
  }

  predicate WasProcessing(s: State, id: WorkingDirectoryId) {
    HasId(s.entries, id) && DirOf(s.entries, id).status.Processing?
  }

  /** What one operation does to one directory that is there afterwards. */
  lemma OpOnDirectory(t: State, op: Op, capacity: nat, e: Entry)
    requires Consistent(t) && capacity >= 1 && e in Next(t, op, capacity).entries
    ensures
      if HasId(t.entries, e.id) then
        var before := DirOf(t.entries, e.id);
        if op.OpProcess? && UsedBy(t, op, capacity) == Some(e.id) then
          && e.dir.commit == (if op.action.checkout.Some? then op.action.checkout.value else before.commit)
          && e.dir.numRuns == before.numRuns + (if before.status.Processing? then 0 else 1)
          && !e.dir.status.Processing?
        else
          e.dir == before && UsedBy(t, op, capacity) != Some(e.id)
      else
        && UsedBy(t, op, capacity) == Some(e.id) && !op.OpProcess?
        && CloneOf(op).Some? && e.dir.commit == CloneOf(op).value.commit && e.dir.numRuns == 0
        && !e.dir.status.Processing?
  {
    match op
    case OpProcess(k, action) =>
      ProcessOnDirectory(t, k, action, e);
    case OpDelete(k) =>
      Eviction.HasEntry(t, e);
    case OpGetFirst(clone) =>
      FirstDirectoryKeeps(t, clone);
      CloneOnDirectory(t, clone, e);
    case OpGetFor(commit, data, clone) =>
      GetForKeeps(t, commit, data, capacity, clone);
      CloneOnDirectory(t, clone, e);
  }

  lemma ProcessOnDirectory(t: State, k: WorkingDirectoryId, action: Action, e: Entry)
    requires Consistent(t) && e in Process(t, k, action).0.entries
    ensures HasId(t.entries, e.id)
    ensures
      var before := DirOf(t.entries, e.id);
      if e.id == k && before.status.CanBeUsedForJobs() then e.dir == Processed(before, action) else e.dir == before
  {
    var es := Process(t, k, action).0.entries;
    var i :| 0 <= i < |es| && es[i] == e;
    DirOfEach(t.entries, e.id, i);
  }

  lemma CloneOnDirectory(t: State, clone: Option<Cloned>, e: Entry)
    requires Consistent(t) && (e in t.entries || e in NewDirectory(t, clone).0.entries)
    ensures
      if HasId(t.entries, e.id) then e.dir == DirOf(t.entries, e.id) && e.id < t.nextId
      else e.id == t.nextId && clone.Some? && e.dir.commit == clone.value.commit && e.dir.numRuns == 0
           && e.dir.status == CheckedOut
  {
    if e in t.entries {
      Eviction.HasEntry(t, e);
    } else if HasId(t.entries, e.id) {
      UsedIsOld(t, e.id);
    }
  }

  /** After any run every directory is recorded at the commit that was checked out in it last. */
  lemma {:induction false} RecordedCommitIsLastCheckout(s: State, ops: seq<Op>, capacity: nat, e: Entry)
    requires Consistent(s) && capacity >= 1 && e in Run(s, ops, capacity).entries
    ensures e.dir.commit == LastCheckout(s, ops, UsesOf(s, ops, capacity), e.id)
  {
    if ops == [] {
      Eviction.HasEntry(s, e);
    } else {
      var n, uses := |ops| - 1, UsesOf(s, ops, capacity);
      var t := Run(s, ops[..n], capacity);
      assert uses[..n] == UsesOf(s, ops[..n], capacity);
      RunKeeps(s, ops[..n], capacity);
      OpOnDirectory(t, ops[n], capacity, e);
      if HasId(t.entries, e.id) {
        RecordedCommitIsLastCheckout(s, ops[..n], capacity, Entry(e.id, DirOf(t.entries, e.id)));
      }
    }
  }

  lemma {:induction false} UnknownHasNoActions(s: State, ops: seq<Op>, capacity: nat, id: WorkingDirectoryId)
    requires Consistent(s) && capacity >= 1 && Run(s, ops, capacity).nextId <= id
    ensures ActionsIn(ops, UsesOf(s, ops, capacity), id) == 0 && !HasId(s.entries, id)
  {
    if ops == [] {
      OldIdIsNotNext(s, id);
    } else {
      var n, uses := |ops| - 1, UsesOf(s, ops, capacity);
      var t := Run(s, ops[..n], capacity);
      assert uses[..n] == UsesOf(s, ops[..n], capacity);
      RunKeeps(s, ops[..n], capacity);
      StepKeeps(t, ops[n], capacity);
      OldIdIsNotNext(t, id);
      UnknownHasNoActions(s, ops[..n], capacity, id);
    }
  }

  /** And its status file counts every action that was run in it; one that was under way at first counted before. */
  lemma {:induction false} RecordedRunsAreActions(s: State, ops: seq<Op>, capacity: nat, e: Entry)
    requires Consistent(s) && capacity >= 1 && e in Run(s, ops, capacity).entries
    ensures
      var n, busy := ActionsIn(ops, UsesOf(s, ops, capacity), e.id), WasProcessing(s, e.id);
      && e.dir.numRuns == RunsAtStart(s, e.id) + n - (if busy && n > 0 then 1 else 0)
      && (e.dir.status.Processing? <==> busy && n == 0)
  {
    if ops == [] {
      Eviction.HasEntry(s, e);
    } else {
      var n, uses := |ops| - 1, UsesOf(s, ops, capacity);
      var t := Run(s, ops[..n], capacity);
      assert uses[..n] == UsesOf(s, ops[..n], capacity);
      RunKeeps(s, ops[..n], capacity);
      OpOnDirectory(t, ops[n], capacity, e);
      if HasId(t.entries, e.id) {
        RecordedRunsAreActions(s, ops[..n], capacity, Entry(e.id, DirOf(t.entries, e.id)));
      } else {
        NewIsUnknown(t, ops[n], capacity, e);
        UnknownHasNoActions(s, ops[..n], capacity, e.id);
      }
    }
  }

  lemma NewIsUnknown(t: State, op: Op, capacity: nat, e: Entry)
    requires Consistent(t) && capacity >= 1 && e in Next(t, op, capacity).entries && !HasId(t.entries, e.id)
    ensures e.id == t.nextId
  {
    OpOnDirectory(t, op, capacity, e);
  }

  // ---- The next job for the commit

  ghost predicate LeavesAlone(op: Op, id: WorkingDirectoryId) {
    op != OpDelete(id) && !(op.OpProcess? && op.id == id)
  }

  lemma StepKeepsEntry(t: State, op: Op, capacity: nat, e: Entry)
    requires capacity >= 1 && e in t.entries && LeavesAlone(op, e.id)
    ensures e in Next(t, op, capacity).entries
  {
    match op
    case OpProcess(_, _) =>
      var i :| 0 <= i < |t.entries| && t.entries[i] == e;
      assert Next(t, op, capacity).entries[i] == e;
    case OpDelete(_) =>
    case OpGetFirst(clone) => FirstDirectoryKeeps(t, clone);
    case OpGetFor(commit, data, clone) => GetForKeeps(t, commit, data, capacity, clone);
  }

  lemma StepKeepsDirectory(t: State, op: Op, capacity: nat, id: WorkingDirectoryId)
    requires Consistent(t) && capacity >= 1 && HasId(t.entries, id) && LeavesAlone(op, id)
    ensures var u := Next(t, op, capacity);
      HasId(u.entries, id) && DirOf(u.entries, id) == DirOf(t.entries, id)
  {
    var e := Entry(id, DirOf(t.entries, id));
    StepKeeps(t, op, capacity);
    StepKeepsEntry(t, op, capacity, e);
    Eviction.HasEntry(Next(t, op, capacity), e);
  }

  lemma {:induction false} RunKeepsDirectory(t: State, ops: seq<Op>, capacity: nat, id: WorkingDirectoryId)
    requires Consistent(t) && capacity >= 1 && HasId(t.entries, id)
    requires forall k :: 0 <= k < |ops| ==> LeavesAlone(ops[k], id)
    ensures var u := Run(t, ops, capacity);
      HasId(u.entries, id) && DirOf(u.entries, id) == DirOf(t.entries, id)
  {
    if ops != [] {
      var front := ops[..|ops| - 1];
      RunKeepsDirectory(t, front, capacity, id);
      RunKeeps(t, front, capacity);
      StepKeepsDirectory(Run(t, front, capacity), ops[|ops| - 1], capacity, id);
    }
  }

  /**
   After any run, a job checks out a commit in an active directory and succeeds; however the pool is used
   then, unless that directory is deleted or used again, the next job for the commit gets an active
   directory that is at it, and nothing is cloned or given up.
   */
  lemma CheckoutIsFoundAgain(
      s: State, ops: seq<Op>, id: WorkingDirectoryId, commit: CommitId, later: seq<Op>, capacity: nat,
      data: RunQueuesData, clone: Option<Cloned>)
    requires Consistent(s) && capacity >= 1 && data.Valid() && ActiveId(Run(s, ops, capacity).entries, id)
    requires forall k :: 0 <= k < |later| ==> LeavesAlone(later[k], id)
    ensures
      var t := Run(Process(Run(s, ops, capacity), id, Action(Some(commit), true)).0, later, capacity);
      exists e ::
        && e in t.entries && e.Active() && e.dir.commit == commit
        && GetFor(t, commit, data, capacity, clone) == (t, Success(e.id))
  {
    var before := Run(s, ops, capacity);
    RunKeeps(s, ops, capacity);
    var done := Process(before, id, Action(Some(commit), true)).0;
    ProcessedDirectory(before, id, Action(Some(commit), true));
    ProcessKeeps(before, id, Action(Some(commit), true));
    RunKeepsDirectory(done, later, capacity, id);
    RunKeeps(done, later, capacity);
    GetsOneAt(Run(done, later, capacity), id, commit, data, capacity, clone);
  }

  lemma GetsOneAt(
      t: State, id: WorkingDirectoryId, commit: CommitId, data: RunQueuesData, capacity: nat, clone: Option<Cloned>)
    requires Consistent(t) && capacity >= 1 && data.Valid() && HasId(t.entries, id)
    requires DirOf(t.entries, id).commit == commit && DirOf(t.entries, id).status.CanBeUsedForJobs()
    ensures exists e ::
      && e in t.entries && e.Active() && e.dir.commit == commit
      && GetFor(t, commit, data, capacity, clone) == (t, Success(e.id))
  {
    assert Entry(id, DirOf(t.entries, id)).Active();
    FittingIsPreferred(t, commit, data);
    var fitting := WithCommit(ActiveEntries(t.entries), commit);
    var e: Entry :| TryGetFitting(t, commit, data) == Some(e.id) && Preferred(e, fitting);
    assert e in t.entries && e.Active() && e.dir.commit == commit;
  }

  // ---- Which of several

  /** Directories are given out that are checked out, processing or finished: all but failed ones and those examined. */
  lemma UsableUnlessSetAside(e: Entry)
    ensures e.Active() <==> !e.dir.status.Error? && !e.dir.status.Examination?
  {
  }

  /** Of the usable statuses finished is preferred to processing, and that to just checked out. */
  lemma FinishedIsPreferred(e: Entry, f: Entry)
    requires e.Active() && f.Active()
    ensures e.dir.status.Score() < f.dir.status.Score() <==>
      (e.dir.status.CheckedOut? && !f.dir.status.CheckedOut?) || (e.dir.status.Processing? && f.dir.status.Finished?)
  {
  }

  /** So among the active directories at the commit: a finished one if there is one, and of those the latest. */
  lemma FittingIsFinishedIfAny(s: State, commit: CommitId, data: RunQueuesData, f: Entry)
    requires Consistent(s) && data.Valid() && f in s.entries && f.Active() && f.dir.commit == commit
    requires f.dir.status.Finished?
    ensures exists e ::
      && e in s.entries && TryGetFitting(s, commit, data) == Some(e.id)
      && e.dir.commit == commit && e.dir.status.Finished? && f.id <= e.id
  {
    FittingIsPreferred(s, commit, data);
    var fitting := WithCommit(ActiveEntries(s.entries), commit);
    var e: Entry :| TryGetFitting(s, commit, data) == Some(e.id) && Preferred(e, fitting);
    assert f in WithCommit(ActiveEntries(s.entries), commit);
    FinishedIsPreferred(e, f);
    assert e in s.entries && e.dir.status.Finished?;
  }

  /** The first directory is the active one with the lowest id. */
  lemma FirstIsLowest(s: State, clone: Option<Cloned>, e: Entry)
    requires Consistent(s) && e in s.entries && e.Active()
    ensures var (t, r) := FirstDirectory(s, clone);
      t == s && r.Success? && r.value <= e.id && ActiveId(s.entries, r.value)
  {
    FirstDirectoryKeeps(s, clone);
    ActiveSorted(s.entries);
    var active := ActiveEntries(s.entries);
    var i :| 0 <= i < |active| && active[i] == e;
  }
}
