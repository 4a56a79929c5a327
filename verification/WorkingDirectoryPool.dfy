/** The pool of checkouts that jobs run in: which one a job gets, when one is cloned, and its status. */
module WorkingDirectoryPool {
  import opened Wrappers
  import opened Jobs
  import opened RunQueues

  datatype Status = CheckedOut | Processing | Error | Finished | Examination {
    function Score(): nat {
      match this
      case CheckedOut => 1
      case Processing => 2
      case Error => 3
      case Finished => 4
      case Examination => 5
    }

    predicate CanBeUsedForJobs() {
      CheckedOut? || Processing? || Finished?
    }
  }

  /** `file` is the content of the status file, if there is one. */
  datatype Dir = Dir(
      commit: CommitId,
      status: Status,
      numRuns: nat,
      lastUse: nat,
      file: Option<(Status, nat)>,
      needsSaving: bool) {

    /** The directory is described by its status file. */
    predicate Valid() {
      !needsSaving && file == Some((status, numRuns))
    }

    /** A run starts when the status becomes `Processing`. */
    function RunsAfter(newStatus: Status): nat {
      if status != newStatus && newStatus.Processing? then numRuns + 1 else numRuns
    }

    /** The new status, also in the file. */
    function Saved(newStatus: Status): Dir {
      Dir(commit, newStatus, RunsAfter(newStatus), lastUse, Some((newStatus, RunsAfter(newStatus))), false)
    }

    /** Switching to another commit; nothing happens when it is already checked out. */
    function OnCommit(wanted: CommitId): Dir {
      if commit == wanted then this else this.(commit := wanted).Saved(CheckedOut)
    }
  }

  datatype Entry = Entry(id: WorkingDirectoryId, dir: Dir) {
    predicate Active() {
      dir.status.CanBeUsedForJobs()
    }
  }

  type Entries = seq<Entry>

  /** The map from ids to directories, in the order of the ids, and the next id to use. */
  datatype State = State(nextId: nat, entries: Entries)

  datatype PoolError = IdMustExist | IsSetAside | CloneFailed | ActionFailed

  /** A successful clone: the commit it is at, and the time. */
  datatype Cloned = Cloned(commit: CommitId, time: nat)

  ghost predicate Sorted(es: Entries) {
    forall i, j :: 0 <= i < j < |es| ==> es[i].id < es[j].id
  }

  ghost predicate Consistent(s: State) {
    && Sorted(s.entries)
    && (forall i :: 0 <= i < |s.entries| ==> s.entries[i].id < s.nextId && s.entries[i].dir.Valid())
  }

  predicate HasId(es: Entries, id: WorkingDirectoryId) {
    exists i :: 0 <= i < |es| && es[i].id == id
  }

  ghost predicate ActiveId(es: Entries, id: WorkingDirectoryId) {
    exists e :: e in es && e.id == id && e.Active()
  }

  /** Ids in use later that were not in use before are new ones. */
  ghost predicate NoOldIdReturns(s: State, t: State) {
    forall id: nat :: HasId(t.entries, id) && id < s.nextId ==> HasId(s.entries, id)
  }

  // ---- Scanning the entries in order

  function ActiveEntries(es: Entries): (r: Entries)
    ensures forall e :: e in r <==> e in es && e.Active()
  {
    if es == [] then []
    else ActiveEntries(es[..|es| - 1]) + if es[|es| - 1].Active() then [es[|es| - 1]] else []
  }

  function WithCommit(es: Entries, commit: CommitId): (r: Entries)
    ensures forall e :: e in r <==> e in es && e.dir.commit == commit
  {
    if es == [] then []
    else WithCommit(es[..|es| - 1], commit) + if es[|es| - 1].dir.commit == commit then [es[|es| - 1]] else []
  }

  function Obsolete(es: Entries, data: RunQueuesData): (r: Entries)
    ensures forall e :: e in r <==> e in es && !data.HaveJobWithCommitId(e.dir.commit)
  {
    if es == [] then []
    else Obsolete(es[..|es| - 1], data)
         + if !data.HaveJobWithCommitId(es[|es| - 1].dir.commit) then [es[|es| - 1]] else []
  }

  /** The last of those with the highest status. */
  function BestStatus(es: Entries): (r: Entry)
    requires es != []
    ensures r in es && forall e :: e in es ==> e.dir.status.Score() <= r.dir.status.Score()
    ensures Sorted(es) ==> forall e :: e in es && e.dir.status.Score() == r.dir.status.Score() ==> e.id <= r.id
  {
    if |es| == 1 then es[0]
    else
      var best, e := BestStatus(es[..|es| - 1]), es[|es| - 1];
      if e.dir.status.Score() >= best.dir.status.Score() then e else best
  }

  /** The first of those with the earliest recorded use. */
  function LeastRecent(es: Entries): (r: Entry)
    requires es != []
    ensures r in es && forall e :: e in es ==> r.dir.lastUse <= e.dir.lastUse
    ensures Sorted(es) ==> forall e :: e in es && e.dir.lastUse == r.dir.lastUse ==> r.id <= e.id
  {
    if |es| == 1 then es[0]
    else
      var best, e := LeastRecent(es[..|es| - 1]), es[|es| - 1];
      if e.dir.lastUse < best.dir.lastUse then e else best
  }

  // ---- What the operations do

  type Outcome = (State, Result<WorkingDirectoryId, PoolError>)

  /** The id is used up even when the clone fails. */
  function NewDirectory(s: State, clone: Option<Cloned>): Outcome {
    var id := s.nextId;
    if clone.None? then (State(id + 1, s.entries), Failure(CloneFailed))
    else
      var dir := Dir(clone.value.commit, CheckedOut, 0, clone.value.time, Some((CheckedOut, 0)), false);
      (State(id + 1, s.entries + [Entry(id, dir)]), Success(id))
  }

  function FirstDirectory(s: State, clone: Option<Cloned>): Outcome {
    if ActiveEntries(s.entries) != [] then (s, Success(ActiveEntries(s.entries)[0].id)) else NewDirectory(s, clone)
  }

  function TryGetFitting(s: State, commit: CommitId, data: RunQueuesData): Option<WorkingDirectoryId> {
    var active := ActiveEntries(s.entries);
    if WithCommit(active, commit) != [] then Some(BestStatus(WithCommit(active, commit)).id)
    else if Obsolete(active, data) != [] then Some(BestStatus(Obsolete(active, data)).id)
    else None
  }

  function GetFor(s: State, commit: CommitId, data: RunQueuesData, capacity: nat, clone: Option<Cloned>): Outcome
    requires capacity >= 1
  {
    var active, fitting := ActiveEntries(s.entries), TryGetFitting(s, commit, data);
    if fitting.Some? then (s, Success(fitting.value))
    else if |active| < capacity then NewDirectory(s, clone)
    else (s, Success(LeastRecent(active).id))
  }

  function Without(es: Entries, id: WorkingDirectoryId): (r: Entries)
    ensures forall e :: e in r <==> e in es && e.id != id
    ensures |r| <= |es|
  {
    if es == [] then []
    else Without(es[..|es| - 1], id) + if es[|es| - 1].id != id then [es[|es| - 1]] else []
  }

  function Delete(s: State, id: WorkingDirectoryId): (State, Result<(), PoolError>) {
    if HasId(s.entries, id) then (s.(entries := Without(s.entries, id)), Success(())) else (s, Failure(IdMustExist))
  }

  /** The directory of one entry is replaced. */
  function Replaced(es: Entries, id: WorkingDirectoryId, dir: Dir): (r: Entries)
    ensures |r| == |es|
    ensures forall i :: 0 <= i < |es| ==> r[i] == if es[i].id == id then Entry(id, dir) else es[i]
  {
    seq(|es|, i requires 0 <= i < |es| => if es[i].id == id then Entry(id, dir) else es[i])
  }

  function DirOf(es: Entries, id: WorkingDirectoryId): (d: Dir)
    requires HasId(es, id)
    ensures Entry(id, d) in es
  {
    if es[|es| - 1].id == id then es[|es| - 1].dir else DirOf(es[..|es| - 1], id)
  }

  /** What an action does to its directory: perhaps check out a commit, then succeed or fail. */
  datatype Action = Action(checkout: Option<CommitId>, succeeds: bool)

  function Processed(dir: Dir, action: Action): Dir {
    Acted(dir.Saved(Processing), action)
  }

  function Acted(dir: Dir, action: Action): Dir {
    (if action.checkout.Some? then dir.OnCommit(action.checkout.value) else dir)
    .Saved(if action.succeeds then Finished else Error)
  }

  function Process(s: State, id: WorkingDirectoryId, action: Action): (State, Result<(), PoolError>) {
    if !HasId(s.entries, id) then (s, Failure(IdMustExist))
    else if !DirOf(s.entries, id).status.CanBeUsedForJobs() then (s, Failure(IsSetAside))
    else
      (s.(entries := Replaced(s.entries, id, Processed(DirOf(s.entries, id), action))),
       if action.succeeds then Success(()) else Failure(ActionFailed))
  }

  // ---- Steps keep the state valid, and the bound on active directories

  lemma {:induction false} ActiveAppend(a: Entries, b: Entries)
    ensures ActiveEntries(a + b) == ActiveEntries(a) + ActiveEntries(b)
  {
    if b == [] {
      assert a + b == a;
    } else {
      assert (a + b)[..|a + b| - 1] == a + b[..|b| - 1];
      ActiveAppend(a, b[..|b| - 1]);
    }
  }

  /** Fewer active ones when no entry becomes active. */
  lemma {:induction false} ActiveOfChanged(a: Entries, b: Entries)
    requires |a| == |b| && forall i :: 0 <= i < |a| ==> b[i].Active() ==> a[i].Active()
    ensures |ActiveEntries(b)| <= |ActiveEntries(a)|
  {
    if a != [] {
      ActiveOfChanged(a[..|a| - 1], b[..|b| - 1]);
    }
  }

  lemma ActiveSnoc(es: Entries, e: Entry)
    ensures ActiveEntries(es + [e]) == ActiveEntries(es) + if e.Active() then [e] else []
  {
    assert (es + [e])[..|es|] == es;
  }

  lemma {:induction false} ActiveOfWithout(es: Entries, id: WorkingDirectoryId)
    ensures |ActiveEntries(Without(es, id))| <= |ActiveEntries(es)|
  {
    if es != [] {
      var front, last := es[..|es| - 1], es[|es| - 1];
      ActiveOfWithout(front, id);
      if last.id != id {
        ActiveSnoc(Without(front, id), last);
      } else {
        assert Without(es, id) == Without(front, id);
      }
    }
  }

  lemma {:induction false} WithoutSorted(es: Entries, id: WorkingDirectoryId)
    requires Sorted(es)
    ensures Sorted(Without(es, id))
  {
    if es != [] {
      var front := es[..|es| - 1];
      WithoutSorted(front, id);
      forall e | e in Without(front, id)
        ensures e.id < es[|es| - 1].id
      {
        assert e in front;
      }
    }
  }

  lemma NewDirectoryKeeps(s: State, clone: Option<Cloned>)
    requires Consistent(s)
    ensures var (t, r) := NewDirectory(s, clone);
      && Consistent(t) && t.nextId == s.nextId + 1 && NoOldIdReturns(s, t)
      && |ActiveEntries(t.entries)| <= |ActiveEntries(s.entries)| + 1
      && (r.Success? ==> ActiveId(t.entries, r.value) && r.value == s.nextId)
  {
    var (t, r) := NewDirectory(s, clone);
    if clone.Some? {
      var e := t.entries[|s.entries|];
      assert e in t.entries && e.Active();
      ActiveAppend(s.entries, [e]);
      assert ActiveEntries([e]) == ActiveEntries([]) + [e];
      forall id: nat | HasId(t.entries, id) && id < s.nextId
        ensures HasId(s.entries, id)
      {
        var i :| 0 <= i < |t.entries| && t.entries[i].id == id;
        assert t.entries[i] == s.entries[i];
      }
    }
  }

  datatype Op =
    | OpGetFirst(clone: Option<Cloned>)
    | OpGetFor(commit: CommitId, data: RunQueuesData, clone: Option<Cloned>)
    | OpProcess(id: WorkingDirectoryId, action: Action)
    | OpDelete(id: WorkingDirectoryId)

  function Next(s: State, op: Op, capacity: nat): State
    requires capacity >= 1
  {
    match op
    case OpGetFirst(clone) => FirstDirectory(s, clone).0
    case OpGetFor(commit, data, clone) => GetFor(s, commit, data, capacity, clone).0
    case OpProcess(id, action) => Process(s, id, action).0
    case OpDelete(id) => Delete(s, id).0
  }

  /** The id that an operation gives out. */
  function Given(s: State, op: Op, capacity: nat): Option<WorkingDirectoryId>
    requires capacity >= 1
  {
    match op
    case OpGetFirst(clone) =>
      var r := FirstDirectory(s, clone).1;
      if r.Success? then Some(r.value) else None
    case OpGetFor(commit, data, clone) =>
      var r := GetFor(s, commit, data, capacity, clone).1;
      if r.Success? then Some(r.value) else None
    case _ => None
  }

  function Max(a: nat, b: nat): nat {
    if a < b then b else a
  }

  lemma ReplacedKeeps(s: State, id: WorkingDirectoryId, dir: Dir)
    requires Consistent(s) && dir.Valid()
    ensures Consistent(s.(entries := Replaced(s.entries, id, dir)))
    ensures NoOldIdReturns(s, s.(entries := Replaced(s.entries, id, dir)))
  {
    var es := Replaced(s.entries, id, dir);
    forall k: nat | HasId(es, k)
      ensures HasId(s.entries, k)
    {
      var i :| 0 <= i < |es| && es[i].id == k;
      assert s.entries[i].id == k;
    }
  }

  lemma DirOfEach(es: Entries, id: WorkingDirectoryId, i: nat)
    requires Sorted(es) && i < |es| && es[i].id == id
    ensures HasId(es, id) && DirOf(es, id) == es[i].dir
  {
    var d := DirOf(es, id);
    var j :| 0 <= j < |es| && es[j] == Entry(id, d);
  }

  lemma ProcessKeeps(s: State, id: WorkingDirectoryId, action: Action)
    requires Consistent(s)
    ensures var t := Process(s, id, action).0;
      && Consistent(t) && t.nextId == s.nextId && NoOldIdReturns(s, t)
      && |ActiveEntries(t.entries)| <= |ActiveEntries(s.entries)|
  {
    var t := Process(s, id, action).0;
    if t != s {
      forall i | 0 <= i < |s.entries| && s.entries[i].id == id
        ensures s.entries[i].Active()
      {
        DirOfEach(s.entries, id, i);
      }
      ActiveOfChanged(s.entries, t.entries);
      ReplacedKeeps(s, id, Processed(DirOf(s.entries, id), action));
    }
  }

  lemma WithoutIds(es: Entries, id: WorkingDirectoryId, k: WorkingDirectoryId)
    ensures HasId(Without(es, id), k) <==> HasId(es, k) && k != id
  {
    var r := Without(es, id);
    if HasId(r, k) {
      var i :| 0 <= i < |r| && r[i].id == k;
      assert r[i] in es;
    }
    if HasId(es, k) && k != id {
      var i :| 0 <= i < |es| && es[i].id == k;
      assert es[i] in r;
    }
  }

  lemma WithoutKeeps(s: State, id: WorkingDirectoryId)
    requires Consistent(s)
    ensures Consistent(s.(entries := Without(s.entries, id)))
  {
    WithoutSorted(s.entries, id);
    var r := Without(s.entries, id);
    forall i | 0 <= i < |r|
      ensures r[i].id < s.nextId && r[i].dir.Valid()
    {
      assert r[i] in s.entries;
    }
  }

  lemma DeleteKeeps(s: State, id: WorkingDirectoryId)
    requires Consistent(s)
    ensures var t := Delete(s, id).0;
      && Consistent(t) && t.nextId == s.nextId && !HasId(t.entries, id) && NoOldIdReturns(s, t)
      && |ActiveEntries(t.entries)| <= |ActiveEntries(s.entries)|
  {
    WithoutKeeps(s, id);
    ActiveOfWithout(s.entries, id);
    WithoutIds(s.entries, id, id);
    forall k: nat | HasId(Without(s.entries, id), k)
      ensures HasId(s.entries, k)
    {
      WithoutIds(s.entries, id, k);
    }
  }

  /** Whatever is chosen among the active entries is active. */
  lemma ActiveIsActiveId(es: Entries, e: Entry)
    requires e in ActiveEntries(es)
    ensures ActiveId(es, e.id)
  {
  }

  lemma FirstDirectoryKeeps(s: State, clone: Option<Cloned>)
    ensures var (t, r) := FirstDirectory(s, clone);
      if ActiveEntries(s.entries) == [] then (t, r) == NewDirectory(s, clone)
      else t == s && r.Success? && ActiveId(s.entries, r.value)
  {
    if ActiveEntries(s.entries) != [] {
      ActiveIsActiveId(s.entries, ActiveEntries(s.entries)[0]);
    }
  }

  lemma FittingIsActive(s: State, commit: CommitId, data: RunQueuesData)
    ensures TryGetFitting(s, commit, data).Some? ==> ActiveId(s.entries, TryGetFitting(s, commit, data).value)
  {
    var active := ActiveEntries(s.entries);
    if WithCommit(active, commit) != [] {
      ActiveIsActiveId(s.entries, BestStatus(WithCommit(active, commit)));
    } else if Obsolete(active, data) != [] {
      ActiveIsActiveId(s.entries, BestStatus(Obsolete(active, data)));
    }
  }

  lemma GetForKeeps(s: State, commit: CommitId, data: RunQueuesData, capacity: nat, clone: Option<Cloned>)
    requires capacity >= 1
    ensures var (t, r) := GetFor(s, commit, data, capacity, clone);
      if TryGetFitting(s, commit, data).None? && |ActiveEntries(s.entries)| < capacity
      then (t, r) == NewDirectory(s, clone)
      else t == s && r.Success? && ActiveId(s.entries, r.value)
  {
    FittingIsActive(s, commit, data);
    if ActiveEntries(s.entries) != [] {
      ActiveIsActiveId(s.entries, LeastRecent(ActiveEntries(s.entries)));
    }
  }

  /**
   * One step: the state stays valid, the number of active directories does not exceed the capacity
   * (or what it was), what is given out is active, and ids are never given back.
   */
  lemma StepKeeps(s: State, op: Op, capacity: nat)
    requires Consistent(s) && capacity >= 1
    ensures var t := Next(s, op, capacity);
      && Consistent(t) && s.nextId <= t.nextId && NoOldIdReturns(s, t)
      && |ActiveEntries(t.entries)| <= Max(capacity, |ActiveEntries(s.entries)|)
      && (Given(s, op, capacity).Some? ==> ActiveId(t.entries, Given(s, op, capacity).value))
  {
    match op
    case OpProcess(id, action) => ProcessKeeps(s, id, action);
    case OpDelete(id) => DeleteKeeps(s, id);
    case OpGetFirst(clone) =>
      FirstDirectoryKeeps(s, clone);
      NewDirectoryKeeps(s, clone);
    case OpGetFor(commit, data, clone) =>
      GetForKeeps(s, commit, data, capacity, clone);
      NewDirectoryKeeps(s, clone);
  }

  // ---- Whole runs

  function Run(s: State, ops: seq<Op>, capacity: nat): State
    requires capacity >= 1
  {
    if ops == [] then s else Next(Run(s, ops[..|ops| - 1], capacity), ops[|ops| - 1], capacity)
  }

  /** The id that the `k`-th operation gives out. */
  function GivenAt(s: State, ops: seq<Op>, capacity: nat, k: nat): Option<WorkingDirectoryId>
    requires capacity >= 1 && k < |ops|
  {
    Given(Run(s, ops[..k], capacity), ops[k], capacity)
  }

  /** Over every run: the capacity is kept, and an old id that is not in use never comes back. */
  lemma {:induction false} RunKeeps(s: State, ops: seq<Op>, capacity: nat)
    requires Consistent(s) && capacity >= 1
    ensures var t := Run(s, ops, capacity);
      && Consistent(t) && s.nextId <= t.nextId
      && |ActiveEntries(t.entries)| <= Max(capacity, |ActiveEntries(s.entries)|)
      && NoOldIdReturns(s, t)
  {
    if ops != [] {
      var front := ops[..|ops| - 1];
      RunKeeps(s, front, capacity);
      StepKeeps(Run(s, front, capacity), ops[|ops| - 1], capacity);
    }
  }

  /** Every id that is given out, anywhere in a run, is that of an active directory. */
  lemma GivenIsActive(s: State, ops: seq<Op>, capacity: nat, k: nat)
    requires Consistent(s) && capacity >= 1 && k < |ops| && GivenAt(s, ops, capacity, k).Some?
    ensures ActiveId(Run(s, ops[..k + 1], capacity).entries, GivenAt(s, ops, capacity, k).value)
  {
    RunKeeps(s, ops[..k], capacity);
    StepKeeps(Run(s, ops[..k], capacity), ops[k], capacity);
    assert ops[..k + 1][..k] == ops[..k];
  }

  /** An old id that is not in use is never in use, nor given out, in the rest of the run. */
  lemma GoneIsGone(t: State, id: WorkingDirectoryId, later: seq<Op>, capacity: nat, k: nat)
    requires Consistent(t) && capacity >= 1 && !HasId(t.entries, id) && id < t.nextId && k < |later|
    ensures !HasId(Run(t, later, capacity).entries, id) && GivenAt(t, later, capacity, k) != Some(id)
  {
    RunKeeps(t, later, capacity);
    if GivenAt(t, later, capacity, k) == Some(id) {
      GivenIsActive(t, later, capacity, k);
      RunKeeps(t, later[..k + 1], capacity);
      ActiveIdHasId(Run(t, later[..k + 1], capacity).entries, id);
    }
  }

  lemma UsedIsOld(s: State, id: WorkingDirectoryId)
    requires Consistent(s) && HasId(s.entries, id)
    ensures id < s.nextId
  {
    var i :| 0 <= i < |s.entries| && s.entries[i].id == id;
  }

  /** After a deletion its id is never given out again, nor in use. */
  lemma DeletedNeverReturns(s: State, id: WorkingDirectoryId, later: seq<Op>, capacity: nat, k: nat)
    requires Consistent(s) && capacity >= 1 && HasId(s.entries, id) && k < |later|
    ensures !HasId(Run(Delete(s, id).0, later, capacity).entries, id)
    ensures GivenAt(Delete(s, id).0, later, capacity, k) != Some(id)
  {
    var t := Delete(s, id).0;
    UsedIsOld(s, id);
    DeleteKeeps(s, id);
    GoneIsGone(t, id, later, capacity, k);
  }

  lemma ActiveIdHasId(es: Entries, id: WorkingDirectoryId)
    requires ActiveId(es, id)
    ensures HasId(es, id)
  {
    var e :| e in es && e.id == id && e.Active();
    var i :| 0 <= i < |es| && es[i] == e;
  }

  // ---- Which directory a job gets

  ghost predicate Needed(data: RunQueuesData, commit: CommitId) {
    exists i, j :: 0 <= i < |data.pipeline| && 0 <= j < |data.pipeline[i].entries|
      && data.pipeline[i].entries[j].job.pub.commitId == commit
  }

  ghost predicate SomeActive(s: State, commit: CommitId) {
    exists e :: e in s.entries && e.Active() && e.dir.commit == commit
  }

  ghost predicate SomeObsolete(s: State, data: RunQueuesData) {
    exists e :: e in s.entries && e.Active() && !Needed(data, e.dir.commit)
  }

  /** An entry that a job for `commit` gets. */
  ghost predicate Gets(s: State, commit: CommitId, data: RunQueuesData, capacity: nat, clone: Option<Cloned>, e: Entry)
    requires capacity >= 1
  {
    && e in s.entries
    && GetFor(s, commit, data, capacity, clone) == (s, Success(e.id))
  }

  lemma NeededIsIndexed(data: RunQueuesData, commit: CommitId)
    requires data.Valid()
    ensures data.HaveJobWithCommitId(commit) <==> Needed(data, commit)
  {
    data.IndexIsFullScan(commit);
  }

  lemma FittingFound(s: State, commit: CommitId, data: RunQueuesData)
    requires data.Valid()
    ensures WithCommit(ActiveEntries(s.entries), commit) != [] <==> SomeActive(s, commit)
    ensures Obsolete(ActiveEntries(s.entries), data) != [] <==> SomeObsolete(s, data)
  {
    var active := ActiveEntries(s.entries);
    if WithCommit(active, commit) != [] {
      assert WithCommit(active, commit)[0] in active;
    }
    if SomeActive(s, commit) {
      var e :| e in s.entries && e.Active() && e.dir.commit == commit;
      assert e in WithCommit(active, commit);
    }
    if Obsolete(active, data) != [] {
      var e := Obsolete(active, data)[0];
      NeededIsIndexed(data, e.dir.commit);
      assert e in active;
    }
    if SomeObsolete(s, data) {
      var e :| e in s.entries && e.Active() && !Needed(data, e.dir.commit);
      NeededIsIndexed(data, e.dir.commit);
      assert e in Obsolete(active, data);
    }
  }

  lemma SameIdSameEntry(s: State, e: Entry, f: Entry)
    requires Consistent(s) && e in s.entries && f in s.entries && e.id == f.id
    ensures e == f
  {
    var i :| 0 <= i < |s.entries| && s.entries[i] == e;
    var j :| 0 <= j < |s.entries| && s.entries[j] == f;
  }

  /**
   * A directory whose commit a queued job needs is retargeted to another commit exactly when no
   * active directory has the wanted commit, every active one is needed by some queued job, and the
   * pool is full; then the one with the earliest recorded use is taken.
   */
  lemma NeededIsRetargetedOnlyWhenFull(
      s: State, commit: CommitId, data: RunQueuesData, capacity: nat, clone: Option<Cloned>)
    requires Consistent(s) && data.Valid() && capacity >= 1
    ensures (exists e :: Gets(s, commit, data, capacity, clone, e)
               && e.dir.commit != commit && Needed(data, e.dir.commit))
       <==> !SomeActive(s, commit) && !SomeObsolete(s, data) && |ActiveEntries(s.entries)| >= capacity
    ensures !SomeActive(s, commit) && !SomeObsolete(s, data) && |ActiveEntries(s.entries)| >= capacity ==>
      forall e, f :: Gets(s, commit, data, capacity, clone, e) && f in s.entries && f.Active() ==>
        e.dir.lastUse <= f.dir.lastUse
  {
    FittingFound(s, commit, data);
    var active := ActiveEntries(s.entries);
    if !SomeActive(s, commit) && !SomeObsolete(s, data) && |active| >= capacity {
      var e := LeastRecent(active);
      assert Gets(s, commit, data, capacity, clone, e) && e.dir.commit != commit && Needed(data, e.dir.commit);
      forall x, f | Gets(s, commit, data, capacity, clone, x) && f in s.entries && f.Active()
        ensures x.dir.lastUse <= f.dir.lastUse
      {
        SameIdSameEntry(s, x, e);
        assert f in active;
      }
    } else {
      forall e | Gets(s, commit, data, capacity, clone, e) && e.dir.commit != commit && Needed(data, e.dir.commit)
        ensures false
      {
        NotRetargeted(s, commit, data, capacity, clone, e);
      }
    }
  }

  lemma NotRetargeted(s: State, commit: CommitId, data: RunQueuesData, capacity: nat, clone: Option<Cloned>, e: Entry)
    requires Consistent(s) && data.Valid() && capacity >= 1 && Gets(s, commit, data, capacity, clone, e)
    requires SomeActive(s, commit) || SomeObsolete(s, data) || |ActiveEntries(s.entries)| < capacity
    ensures e.dir.commit == commit || !Needed(data, e.dir.commit)
  {
    FittingFound(s, commit, data);
    var active := ActiveEntries(s.entries);
    if SomeActive(s, commit) {
      SameIdSameEntry(s, e, BestStatus(WithCommit(active, commit)));
    } else if SomeObsolete(s, data) {
      SameIdSameEntry(s, e, BestStatus(Obsolete(active, data)));
      NeededIsIndexed(data, e.dir.commit);
    }
  }

  lemma SortedSnoc(es: Entries, e: Entry)
    requires Sorted(es) && forall f :: f in es ==> f.id < e.id
    ensures Sorted(es + [e])
  {
  }

  lemma {:induction false} ActiveSorted(es: Entries)
    requires Sorted(es)
    ensures Sorted(ActiveEntries(es))
  {
    if es != [] {
      var front, last := es[..|es| - 1], es[|es| - 1];
      ActiveSorted(front);
      assert forall e :: e in ActiveEntries(front) ==> e in front;
      SortedSnoc(ActiveEntries(front), last);
    }
  }

  lemma {:induction false} WithCommitSorted(es: Entries, commit: CommitId)
    requires Sorted(es)
    ensures Sorted(WithCommit(es, commit))
  {
    if es != [] {
      var front, last := es[..|es| - 1], es[|es| - 1];
      WithCommitSorted(front, commit);
      assert forall e :: e in WithCommit(front, commit) ==> e in front;
      SortedSnoc(WithCommit(front, commit), last);
    }
  }

  lemma {:induction false} ObsoleteSorted(es: Entries, data: RunQueuesData)
    requires Sorted(es)
    ensures Sorted(Obsolete(es, data))
  {
    if es != [] {
      var front, last := es[..|es| - 1], es[|es| - 1];
      ObsoleteSorted(front, data);
      assert forall e :: e in Obsolete(front, data) ==> e in front;
      SortedSnoc(Obsolete(front, data), last);
    }
  }

  /** `e` is preferred to all others: a better status, or the same one and a higher id. */
  ghost predicate Preferred(e: Entry, among: Entries) {
    && e in among
    && forall f :: f in among ==>
         || f.dir.status.Score() < e.dir.status.Score()
         || (f.dir.status.Score() == e.dir.status.Score() && f.id <= e.id)
  }

  /**
   * A directory fits when one with the commit is active, and then the preferred one of those is
   * chosen; else when one is active whose commit no queued job needs.
   */
  lemma FittingIsPreferred(s: State, commit: CommitId, data: RunQueuesData)
    requires Consistent(s) && data.Valid()
    ensures TryGetFitting(s, commit, data).None? <==> !SomeActive(s, commit) && !SomeObsolete(s, data)
    ensures SomeActive(s, commit) ==>
      exists e: Entry :: TryGetFitting(s, commit, data) == Some(e.id)
        && Preferred(e, WithCommit(ActiveEntries(s.entries), commit))
    ensures !SomeActive(s, commit) && SomeObsolete(s, data) ==>
      exists e: Entry :: TryGetFitting(s, commit, data) == Some(e.id)
        && Preferred(e, Obsolete(ActiveEntries(s.entries), data))
  {
    FittingFound(s, commit, data);
    var active := ActiveEntries(s.entries);
    ActiveSorted(s.entries);
    WithCommitSorted(active, commit);
    ObsoleteSorted(active, data);
    if SomeActive(s, commit) {
      assert Preferred(BestStatus(WithCommit(active, commit)), WithCommit(active, commit));
    } else if SomeObsolete(s, data) {
      assert Preferred(BestStatus(Obsolete(active, data)), Obsolete(active, data));
    }
  }

  // ---- Directories that are set aside

  /** A directory that is not active stays so: only an active one is ever changed. */
  lemma StepKeepsSetAside(s: State, op: Op, capacity: nat, id: WorkingDirectoryId)
    requires Consistent(s) && capacity >= 1 && id < s.nextId && !ActiveId(s.entries, id)
    ensures !ActiveId(Next(s, op, capacity).entries, id)
  {
    var t := Next(s, op, capacity);
    if ActiveId(t.entries, id) {
      var e :| e in t.entries && e.id == id && e.Active();
      match op
      case OpProcess(k, action) => ProcessKeepsSetAside(s, k, action, e);
      case OpDelete(k) =>
      case OpGetFirst(clone) =>
        FirstDirectoryKeeps(s, clone);
      case OpGetFor(commit, data, clone) =>
        GetForKeeps(s, commit, data, capacity, clone);
    }
  }

  lemma ProcessKeepsSetAside(s: State, k: WorkingDirectoryId, action: Action, e: Entry)
    requires Consistent(s) && e in Process(s, k, action).0.entries && e.Active()
    ensures ActiveId(s.entries, e.id)
  {
    var t := Process(s, k, action).0;
    if t != s {
      var i :| 0 <= i < |t.entries| && t.entries[i] == e;
      if s.entries[i].id == k {
        DirOfEach(s.entries, k, i);
      }
      assert s.entries[i] in s.entries && s.entries[i].id == e.id && s.entries[i].Active();
    }
  }

  lemma {:induction false} RunKeepsSetAside(s: State, ops: seq<Op>, capacity: nat, id: WorkingDirectoryId)
    requires Consistent(s) && capacity >= 1 && id < s.nextId && !ActiveId(s.entries, id)
    ensures !ActiveId(Run(s, ops, capacity).entries, id)
  {
    if ops != [] {
      var front := ops[..|ops| - 1];
      RunKeepsSetAside(s, front, capacity, id);
      RunKeeps(s, front, capacity);
      StepKeepsSetAside(Run(s, front, capacity), ops[|ops| - 1], capacity, id);
    }
  }

  lemma FailureDeactivates(s: State, id: WorkingDirectoryId, action: Action)
    requires Consistent(s) && HasId(s.entries, id) && !action.succeeds
    ensures HasId(Process(s, id, action).0.entries, id) && !ActiveId(Process(s, id, action).0.entries, id)
  {
    var t := Process(s, id, action).0;
    var i :| 0 <= i < |s.entries| && s.entries[i].id == id;
    FailedEntry(s, i, action);
    ProcessKeeps(s, id, action);
    InactiveEntry(t, i);
  }

  lemma FailedEntry(s: State, i: nat, action: Action)
    requires Consistent(s) && i < |s.entries| && !action.succeeds
    ensures var t := Process(s, s.entries[i].id, action).0;
      i < |t.entries| && t.entries[i].id == s.entries[i].id && !t.entries[i].Active()
  {
    DirOfEach(s.entries, s.entries[i].id, i);
  }

  lemma InactiveEntry(s: State, i: nat)
    requires Consistent(s) && i < |s.entries| && !s.entries[i].Active()
    ensures !ActiveId(s.entries, s.entries[i].id)
  {
    forall e | e in s.entries && e.id == s.entries[i].id
      ensures !e.Active()
    {
      SameIdSameEntry(s, e, s.entries[i]);
    }
  }

  /** The directory of a failed action stays, but is never given out again, whatever happens later. */
  lemma FailureSetsAside(s: State, id: WorkingDirectoryId, action: Action, later: seq<Op>, capacity: nat, k: nat)
    requires Consistent(s) && capacity >= 1 && HasId(s.entries, id) && !action.succeeds && k < |later|
    ensures HasId(Process(s, id, action).0.entries, id)
    ensures GivenAt(Process(s, id, action).0, later, capacity, k) != Some(id)
  {
    var t := Process(s, id, action).0;
    ProcessKeeps(s, id, action);
    FailureDeactivates(s, id, action);
    UsedIsOld(s, id);
    if GivenAt(t, later, capacity, k) == Some(id) {
      GivenIsActive(t, later, capacity, k);
      RunKeepsSetAside(t, later[..k + 1], capacity, id);
    }
  }

  // ---- The order of eviction

  /** The same directories, as usable as before, with the same recorded times of use. */
  ghost predicate SameTimes(a: Entries, b: Entries) {
    && |a| == |b|
    && forall i :: 0 <= i < |a| ==>
         a[i].id == b[i].id && a[i].dir.lastUse == b[i].dir.lastUse && a[i].Active() == b[i].Active()
  }

  lemma SameTimesSnoc(a: Entries, b: Entries, e: Entry, f: Entry)
    requires SameTimes(a, b) && SameTimes([e], [f])
    ensures SameTimes(a + [e], b + [f])
  {
    assert [e][0] == e && [f][0] == f;
  }

  lemma {:induction false} SameActive(a: Entries, b: Entries)
    requires SameTimes(a, b)
    ensures SameTimes(ActiveEntries(a), ActiveEntries(b))
  {
    if a != [] {
      var e, f := a[|a| - 1], b[|b| - 1];
      SameActive(a[..|a| - 1], b[..|b| - 1]);
      if e.Active() {
        SameTimesSnoc(ActiveEntries(a[..|a| - 1]), ActiveEntries(b[..|b| - 1]), e, f);
      }
    }
  }

  lemma {:induction false} SameLeastRecent(a: Entries, b: Entries)
    requires SameTimes(a, b) && a != []
    ensures LeastRecent(a).id == LeastRecent(b).id && LeastRecent(a).dir.lastUse == LeastRecent(b).dir.lastUse
  {
    if |a| > 1 {
      SameLeastRecent(a[..|a| - 1], b[..|b| - 1]);
    }
  }

  /** Selections, and runs of actions that succeed. */
  predicate IsOrdinary(op: Op) {
    op.OpGetFor? || (op.OpProcess? && op.action.succeeds)
  }

  lemma ProcessKeepsTimes(s: State, id: WorkingDirectoryId, action: Action)
    requires Consistent(s) && action.succeeds
    ensures SameTimes(s.entries, Process(s, id, action).0.entries)
  {
    var t := Process(s, id, action).0;
    if t != s {
      forall i | 0 <= i < |s.entries| && s.entries[i].id == id
        ensures s.entries[i].Active() && DirOf(s.entries, id).lastUse == s.entries[i].dir.lastUse
      {
        DirOfEach(s.entries, id, i);
      }
    }
  }

  lemma {:induction false} OrdinaryRunKeepsTimes(s: State, ops: seq<Op>, capacity: nat)
    requires Consistent(s) && 1 <= capacity <= |ActiveEntries(s.entries)|
    requires forall k :: 0 <= k < |ops| ==> IsOrdinary(ops[k])
    ensures SameTimes(s.entries, Run(s, ops, capacity).entries)
  {
    if ops != [] {
      var front, op := ops[..|ops| - 1], ops[|ops| - 1];
      OrdinaryRunKeepsTimes(s, front, capacity);
      var t := Run(s, front, capacity);
      RunKeeps(s, front, capacity);
      SameActive(s.entries, t.entries);
      match op
      case OpProcess(id, action) => ProcessKeepsTimes(t, id, action);
      case OpGetFor(commit, data, clone) => GetForKeeps(t, commit, data, capacity, clone);
    }
  }

  /**
   * Using a directory does not change its recorded time of use. As long as the pool is full, actions
   * succeed and the pool is not opened again, every job that no directory fits gets the same one.
   */
  lemma EvictionHitsTheSameDirectory(s: State, ops: seq<Op>, capacity: nat, op: Op)
    requires Consistent(s) && 1 <= capacity <= |ActiveEntries(s.entries)|
    requires forall k :: 0 <= k < |ops| ==> IsOrdinary(ops[k])
    requires op.OpGetFor? && TryGetFitting(Run(s, ops, capacity), op.commit, op.data).None?
    ensures Given(Run(s, ops, capacity), op, capacity) == Some(LeastRecent(ActiveEntries(s.entries)).id)
  {
    var t := Run(s, ops, capacity);
    OrdinaryRunKeepsTimes(s, ops, capacity);
    SameActive(s.entries, t.entries);
    SameLeastRecent(ActiveEntries(s.entries), ActiveEntries(t.entries));
  }

  // ---- Opening the pool again

  function NextAfter(es: Entries): nat {
    if es == [] then 0 else Max(NextAfter(es[..|es| - 1]), es[|es| - 1].id + 1)
  }

  /** The directories are found again with what their status files say; the next id follows the highest one found. */
  function Reopened(s: State, modified: WorkingDirectoryId -> nat): State
    requires forall e :: e in s.entries ==> e.dir.file.Some?
  {
    State(NextAfter(s.entries), seq(|s.entries|, i requires 0 <= i < |s.entries| =>
      var e := s.entries[i];
      Entry(e.id, e.dir.(status := e.dir.file.value.0, numRuns := e.dir.file.value.1, lastUse := modified(e.id)))))
  }

  lemma {:induction false} NextAfterIsBound(es: Entries)
    requires Sorted(es)
    ensures NextAfter(es) == if es == [] then 0 else es[|es| - 1].id + 1
  {
    if es != [] {
      NextAfterIsBound(es[..|es| - 1]);
    }
  }

  lemma EachHasFile(s: State)
    requires Consistent(s)
    ensures forall e :: e in s.entries ==> e.dir.file.Some? && e.id < s.nextId
  {
  }

  /**
   * Opening the pool again keeps the directories, their commits, statuses and run counts. Ids are
   * not reused afterwards exactly when the directory with the last id that was used still exists.
   */
  lemma ReopenedKeeps(s: State, modified: WorkingDirectoryId -> nat)
    requires Consistent(s)
    ensures EachFile(s)
    ensures var t := Reopened(s, modified);
      && Consistent(t) && |t.entries| == |s.entries|
      && (forall i :: 0 <= i < |s.entries| ==>
            t.entries[i] == Entry(s.entries[i].id, s.entries[i].dir.(lastUse := modified(s.entries[i].id))))
      && t.nextId <= s.nextId
      && (t.nextId == s.nextId <==> s.nextId == 0 || HasId(s.entries, s.nextId - 1))
  {
    EachHasFile(s);
    NextAfterIsBound(s.entries);
    if s.nextId > 0 && HasId(s.entries, s.nextId - 1) {
      var i :| 0 <= i < |s.entries| && s.entries[i].id == s.nextId - 1;
      assert i == |s.entries| - 1;
    }
  }

  ghost predicate EachFile(s: State) {
    forall e :: e in s.entries ==> e.dir.file.Some?
  }

  lemma ReplacedTwice(es: Entries, id: WorkingDirectoryId, a: Dir, b: Dir)
    ensures Replaced(Replaced(es, id, a), id, b) == Replaced(es, id, b)
  {
  }

  lemma ReplacedBySame(s: State, id: WorkingDirectoryId)
    requires Consistent(s) && HasId(s.entries, id)
    ensures Replaced(s.entries, id, DirOf(s.entries, id)) == s.entries
  {
    forall i | 0 <= i < |s.entries| && s.entries[i].id == id
      ensures s.entries[i].dir == DirOf(s.entries, id)
    {
      DirOfEach(s.entries, id, i);
    }
  }

  // ---- The pool

  class Pool {
    const capacity: nat
    var nextId: nat
    var entries: Entries

    function Contents(): State
      reads this
    {
      State(nextId, entries)
    }

    ghost predicate Valid()
      reads this
    {
      capacity >= 1 && Consistent(Contents())
    }

    constructor (capacity: nat)
      requires capacity >= 1
      ensures Valid() && Contents() == State(0, []) && this.capacity == capacity
    {
      this.capacity := capacity;
      nextId, entries := 0, [];
    }

    method NextId() returns (id: WorkingDirectoryId)
      modifies this`nextId
      ensures id == old(nextId) && nextId == id + 1
    {
      id := nextId;
      nextId := nextId + 1;
    }

    method GetNew(clone: Option<Cloned>) returns (r: Result<WorkingDirectoryId, PoolError>)
      requires Valid()
      modifies this
      ensures Valid() && (Contents(), r) == NewDirectory(old(Contents()), clone)
    {
      NewDirectoryKeeps(Contents(), clone);
      var id := NextId();
      if clone.None? {
        return Failure(CloneFailed);
      }
      var dir := Dir(clone.value.commit, CheckedOut, 0, clone.value.time, None, true);
      entries := entries + [Entry(id, SaveStatus(dir, CheckedOut))];
      return Success(id);
    }

    method GetFirst(clone: Option<Cloned>) returns (r: Result<WorkingDirectoryId, PoolError>)
      requires Valid()
      modifies this
      ensures Valid() && (Contents(), r) == FirstDirectory(old(Contents()), clone)
    {
      var active := ActiveEntries(entries);
      if active != [] {
        return Success(active[0].id);
      }
      r := GetNew(clone);
    }

    method GetAWorkingDirectoryFor(commit: CommitId, data: RunQueuesData, clone: Option<Cloned>)
      returns (r: Result<WorkingDirectoryId, PoolError>)
      requires Valid()
      modifies this
      ensures Valid() && (Contents(), r) == GetFor(old(Contents()), commit, data, capacity, clone)
    {
      var fitting := TryGetFitting(Contents(), commit, data);
      if fitting.Some? {
        return Success(fitting.value);
      }
      var active := ActiveEntries(entries);
      if |active| < capacity {
        r := GetNew(clone);
      } else {
        r := Success(LeastRecent(active).id);
      }
    }

    method DeleteWorkingDirectory(id: WorkingDirectoryId) returns (r: Result<(), PoolError>)
      requires Valid()
      modifies this
      ensures Valid() && (Contents(), r) == Delete(old(Contents()), id)
    {
      DeleteKeeps(Contents(), id);
      if !HasId(entries, id) {
        return Failure(IdMustExist);
      }
      entries := Without(entries, id);
      return Success(());
    }

    /** The file is written when the status has changed or has not been saved yet. */
    function SaveStatus(dir: Dir, status: Status): (d: Dir)
      ensures dir.needsSaving || dir.Valid() ==> d == dir.Saved(status)
    {
      var numRuns := if dir.status != status && status == Processing then dir.numRuns + 1 else dir.numRuns;
      var needsSaving := if dir.status != status then true else dir.needsSaving;
      dir.(status := status,
           numRuns := numRuns,
           file := if needsSaving then Some((status, numRuns)) else dir.file,
           needsSaving := false)
    }

    method SetAndSaveStatus(id: WorkingDirectoryId, status: Status)
      requires Valid() && HasId(entries, id)
      modifies this`entries
      ensures Valid() && HasId(entries, id)
      ensures entries == Replaced(old(entries), id, DirOf(old(entries), id).Saved(status))
      ensures DirOf(entries, id) == DirOf(old(entries), id).Saved(status)
    {
      var dir := DirOf(entries, id);
      Set(id, SaveStatus(dir, status));
    }

    method Set(id: WorkingDirectoryId, dir: Dir)
      requires Valid() && HasId(entries, id) && dir.Valid()
      modifies this`entries
      ensures Valid() && HasId(entries, id) && DirOf(entries, id) == dir
      ensures entries == Replaced(old(entries), id, dir)
    {
      ghost var i :| 0 <= i < |entries| && entries[i].id == id;
      ReplacedKeeps(Contents(), id, dir);
      entries := Replaced(entries, id, dir);
      DirOfEach(entries, id, i);
    }

    /** What the action does first: nothing when the commit is already checked out. */
    method Checkout(id: WorkingDirectoryId, commit: CommitId)
      requires Valid() && HasId(entries, id)
      modifies this`entries
      ensures Valid() && HasId(entries, id)
      ensures entries == Replaced(old(entries), id, DirOf(old(entries), id).OnCommit(commit))
      ensures DirOf(entries, id) == DirOf(old(entries), id).OnCommit(commit)
    {
      var dir := DirOf(entries, id);
      if dir.commit != commit {
        Set(id, SaveStatus(dir.(commit := commit), CheckedOut));
      } else {
        ReplacedBySame(Contents(), id);
      }
    }

    /** The action runs without the pool being locked; nothing else changes the directory meanwhile. */
    method Act(id: WorkingDirectoryId, action: Action)
      requires Valid() && HasId(entries, id)
      modifies this`entries
      ensures Valid() && entries == Replaced(old(entries), id, Acted(DirOf(old(entries), id), action))
    {
      ghost var es, acted := entries, DirOf(entries, id);
      if action.checkout.Some? {
        Checkout(id, action.checkout.value);
        acted := acted.OnCommit(action.checkout.value);
      } else {
        ReplacedBySame(Contents(), id);
      }
      assert entries == Replaced(es, id, acted);
      var status := if action.succeeds then Finished else Error;
      SetAndSaveStatus(id, status);
      ReplacedTwice(es, id, acted, acted.Saved(status));
    }

    method ProcessInWorkingDirectory(id: WorkingDirectoryId, action: Action) returns (r: Result<(), PoolError>)
      requires Valid()
      modifies this`entries
      ensures Valid() && (Contents(), r) == Process(old(Contents()), id, action)
    {
      if !HasId(entries, id) {
        return Failure(IdMustExist);
      }
      if !DirOf(entries, id).status.CanBeUsedForJobs() {
        return Failure(IsSetAside);
      }
      ghost var es, d := entries, DirOf(entries, id);
      SetAndSaveStatus(id, Processing);
      Act(id, action);
      ReplacedTwice(es, id, d.Saved(Processing), Processed(d, action));
      r := if action.succeeds then Success(()) else Failure(ActionFailed);
    }
  }
}
