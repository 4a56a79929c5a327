module QueueProtocol {
  // Workers that open, lock, look again at, process and delete the entries of one queue, and may stop anywhere.

  import opened Wrappers
  import opened TimeKeys

  /** A worker may stop at any point, by a crash or by an error that drops the item; its file lock is then released. */
  type Worker = nat

  /** When the worker deletes the entry: before or after processing it. */
  datatype Mode = DeleteFirst | DeleteLast

  datatype Phase =
    | Idle
    | Opened(key: TimeKey, mode: Mode)
    | Locked(key: TimeKey, mode: Mode)    // has the file lock, has not looked again
    | Ready(key: TimeKey, mode: Mode)     // may work on the entry
    | Claimed(key: TimeKey)               // deleted, not yet processed
    | Handled(key: TimeKey)               // processed, not yet deleted
    | Gone(key: TimeKey)                  // processed and deleted

  datatype Event =
    | Pushed(key: TimeKey)
    | Processed(w: Worker, key: TimeKey)
    | Completed(w: Worker, key: TimeKey)  // the worker's deletion of the entry
    | Left(w: Worker)                     // the worker stopped before it was done
    | Removed(key: TimeKey)               // deletion by somebody who takes no lock

  datatype State = State(
    present: set<TimeKey>,
    locks: map<TimeKey, Worker>,
    phases: map<Worker, Phase>,
    log: seq<Event>
  )

  datatype Action =
    | Push(key: TimeKey)
    | Open(w: Worker, key: TimeKey, mode: Mode)
    | Lock(w: Worker)
    | LockLazily(w: Worker)   // `QueueItem::lock_exclusive`: lock, and do not look again
    | Recheck(w: Worker)
    | Work(w: Worker)
    | Delete(w: Worker)
    | Finish(w: Worker)
    | Stop(w: Worker)
    | Remove(key: TimeKey)

  /**
   How the users of the queue behave. `Rechecking`: all look again after locking. `OneAtATime`: they
   may lock lazily, but a lock around everything lets only one of them have an item at any time.
   */
  datatype Discipline = Rechecking | OneAtATime | Unrestricted

  const INITIAL := State({}, map[], map[], [])

  function PhaseOf(s: State, w: Worker): Phase {
    if w in s.phases then s.phases[w] else Idle
  }

  predicate HasLock(ph: Phase) {
    !ph.Idle? && !ph.Opened?
  }

  predicate AllIdle(s: State) {
    forall w :: w in s.phases ==> s.phases[w].Idle?
  }

  predicate Enabled(d: Discipline, s: State, a: Action) {
    match a
    case Push(key) => Pushed(key) !in s.log
    case Open(w, key, _) => PhaseOf(s, w).Idle? && key in s.present && (d.OneAtATime? ==> AllIdle(s))
    case Lock(w) => PhaseOf(s, w).Opened? && PhaseOf(s, w).key !in s.locks
    case LockLazily(w) => !d.Rechecking? && PhaseOf(s, w).Opened? && PhaseOf(s, w).key !in s.locks
    case Recheck(w) => PhaseOf(s, w).Locked?
    case Work(w) => PhaseOf(s, w).Claimed? || (PhaseOf(s, w).Ready? && PhaseOf(s, w).mode.DeleteLast?)
    case Delete(w) => PhaseOf(s, w).Handled? || (PhaseOf(s, w).Ready? && PhaseOf(s, w).mode.DeleteFirst?)
    case Finish(w) => PhaseOf(s, w).Gone?
    case Stop(w) => !PhaseOf(s, w).Idle? && !PhaseOf(s, w).Gone?
    case Remove(key) => key in s.present
  }

  function SetPhase(s: State, w: Worker, ph: Phase): State {
    s.(phases := s.phases[w := ph])
  }

  /** Back to idle; the lock goes with the item. */
  function Drop(s: State, w: Worker): State {
    var ph := PhaseOf(s, w);
    SetPhase(s, w, Idle).(locks := if HasLock(ph) then s.locks - {ph.key} else s.locks)
  }

  function Step(d: Discipline, s: State, a: Action): State
    requires Enabled(d, s, a)
  {
    match a
    case Push(key) => s.(present := s.present + {key}, log := s.log + [Pushed(key)])
    case Open(w, key, mode) => SetPhase(s, w, Opened(key, mode))
    case Lock(w) =>
      var ph := PhaseOf(s, w);
      SetPhase(s, w, Locked(ph.key, ph.mode)).(locks := s.locks[ph.key := w])
    case LockLazily(w) =>
      var ph := PhaseOf(s, w);
      SetPhase(s, w, Ready(ph.key, ph.mode)).(locks := s.locks[ph.key := w])
    case Recheck(w) =>
      var ph := PhaseOf(s, w);
      if ph.key in s.present then SetPhase(s, w, Ready(ph.key, ph.mode)) else Drop(s, w)
    case Work(w) =>
      var ph := PhaseOf(s, w);
      SetPhase(s, w, if ph.Claimed? then Gone(ph.key) else Handled(ph.key)).(log := s.log + [Processed(w, ph.key)])
    case Delete(w) =>
      var ph := PhaseOf(s, w);
      SetPhase(s, w, if ph.Handled? then Gone(ph.key) else Claimed(ph.key))
        .(present := s.present - {ph.key}, log := s.log + [Completed(w, ph.key)])
    case Finish(w) => Drop(s, w)
    case Stop(w) => Drop(s, w).(log := s.log + [Left(w)])
    case Remove(key) => s.(present := s.present - {key}, log := s.log + [Removed(key)])
  }

  predicate Run(d: Discipline, s: State, actions: seq<Action>, t: State)
    decreases |actions|
  {
    if actions == [] then s == t
    else Enabled(d, s, actions[0]) && Run(d, Step(d, s, actions[0]), actions[1..], t)
  }

  // ---- Properties of the log

  ghost predicate IsCompleted(log: seq<Event>, key: TimeKey) {
    exists i :: 0 <= i < |log| && log[i].Completed? && log[i].key == key
  }

  ghost predicate CompletedOnce(log: seq<Event>) {
    forall i, j :: 0 <= i < j < |log| && log[i].Completed? && log[j].Completed? ==> log[i].key != log[j].key
  }

  /** The worker of event `i` stops, without being done, after `i` and before `j`. */
  ghost predicate LeavesBetween(log: seq<Event>, i: nat, j: nat)
    requires i < j <= |log| && log[i].Processed?
  {
    exists c :: i < c < j && log[c] == Left(log[i].w)
  }

  /** Nothing is processed again unless the earlier worker stopped before it was done. */
  ghost predicate RepeatedOnlyAfterStop(log: seq<Event>) {
    forall i, j :: 0 <= i < j < |log| && log[i].Processed? && log[j].Processed? && log[i].key == log[j].key
      ==> LeavesBetween(log, i, j)
  }

  /** Every worker that processed the entry so far stopped before it was done. */
  ghost predicate AllLeft(log: seq<Event>, key: TimeKey) {
    forall i :: 0 <= i < |log| && log[i].Processed? && log[i].key == key ==> LeavesBetween(log, i, |log|)
  }

  // ---- The invariant

  ghost predicate WorkerInv(d: Discipline, s: State, w: Worker) {
    var ph := PhaseOf(s, w);
    && (!ph.Idle? ==> Pushed(ph.key) in s.log)
    && (HasLock(ph) ==> ph.key in s.locks && s.locks[ph.key] == w)
    && (ph.Ready? || ph.Handled? ==> !IsCompleted(s.log, ph.key))
    && (ph.Claimed? || ph.Gone? ==> IsCompleted(s.log, ph.key))
    && (ph.Ready? || ph.Claimed? ==> AllLeft(s.log, ph.key))
    && (d.OneAtATime? && (ph.Opened? || ph.Locked?) ==> !IsCompleted(s.log, ph.key))
  }

  ghost predicate SerialInv(d: Discipline, s: State) {
    d.OneAtATime? ==> forall v, w :: v != w ==> PhaseOf(s, v).Idle? || PhaseOf(s, w).Idle?
  }

  /** A worker that processed an entry and has not stopped is about to delete it, or did delete it. */
  ghost predicate ProcessingInv(s: State) {
    forall i :: 0 <= i < |s.log| && s.log[i].Processed? && !LeavesBetween(s.log, i, |s.log|) ==>
      PhaseOf(s, s.log[i].w) == Handled(s.log[i].key) || IsCompleted(s.log, s.log[i].key)
  }

  ghost predicate EntryInv(s: State, key: TimeKey) {
    && (key in s.present ==> Pushed(key) in s.log && !IsCompleted(s.log, key))
    && (Pushed(key) in s.log && key !in s.present ==> IsCompleted(s.log, key) || Removed(key) in s.log)
    && (IsCompleted(s.log, key) ==> Pushed(key) in s.log)
  }

  ghost predicate Inv(d: Discipline, s: State) {
    && (forall w :: WorkerInv(d, s, w))
    && SerialInv(d, s)
    && (forall key :: EntryInv(s, key))
    && ProcessingInv(s)
    && CompletedOnce(s.log)
    && RepeatedOnlyAfterStop(s.log)
  }

  // ---- One more event

  lemma CompletedExtend(log: seq<Event>, e: Event, key: TimeKey)
    ensures IsCompleted(log + [e], key) <==> IsCompleted(log, key) || (e.Completed? && e.key == key)
  {
    if IsCompleted(log, key) {
      var i :| 0 <= i < |log| && log[i].Completed? && log[i].key == key;
      assert (log + [e])[i] == log[i];
    }
    if e.Completed? && e.key == key {
      assert (log + [e])[|log|] == e;
    }
    if IsCompleted(log + [e], key) {
      var i :| 0 <= i < |log + [e]| && (log + [e])[i].Completed? && (log + [e])[i].key == key;
      assert i < |log| ==> log[i] == (log + [e])[i];
    }
  }

  lemma LeavesExtend(log: seq<Event>, e: Event, i: nat, j: nat)
    requires i < j <= |log| && log[i].Processed?
    ensures LeavesBetween(log + [e], i, j) == LeavesBetween(log, i, j)
    ensures LeavesBetween(log, i, |log|) || e == Left(log[i].w) <==> LeavesBetween(log + [e], i, |log| + 1)
  {
    var log1 := log + [e];
    assert forall c :: 0 <= c < |log| ==> log1[c] == log[c];
    assert log1[|log|] == e;
  }

  lemma AllLeftExtend(log: seq<Event>, e: Event, key: TimeKey)
    requires AllLeft(log, key) && !(e.Processed? && e.key == key)
    ensures AllLeft(log + [e], key)
  {
    forall i | 0 <= i < |log + [e]| && (log + [e])[i].Processed? && (log + [e])[i].key == key
      ensures LeavesBetween(log + [e], i, |log + [e]|)
    {
      assert (log + [e])[i] == log[i];
      LeavesExtend(log, e, i, |log|);
    }
  }

  /** An entry that nobody has completed and that nobody is working on was left by all who tried. */
  lemma UntouchedAllLeft(d: Discipline, s: State, key: TimeKey)
    requires Inv(d, s) && !IsCompleted(s.log, key)
    requires forall v :: PhaseOf(s, v) != Handled(key)
    ensures AllLeft(s.log, key)
  {
  }

  /** The entry that a worker has to do with, if any. */
  function KeyOf(ph: Phase): TimeKey {
    if ph.Idle? then TimeKey(0, 0, 0) else ph.key
  }

  /** Becoming ready: nobody that processed the entry is still there. */
  lemma ReadyStepKeepsWorker(d: Discipline, s: State, a: Action, v: Worker)
    requires !d.Unrestricted? && Inv(d, s) && Enabled(d, s, a) && (a.Recheck? || a.LockLazily?)
    ensures WorkerInv(d, Step(d, s, a), v)
  {
    var t := Step(d, s, a);
    assert WorkerInv(d, s, v) && WorkerInv(d, s, a.w);
    if PhaseOf(t, a.w).Ready? {
      var key := PhaseOf(t, a.w).key;
      assert EntryInv(s, key);
      forall x ensures PhaseOf(s, x) != Handled(key) { assert WorkerInv(d, s, x); }
      UntouchedAllLeft(d, s, key);
    }
  }

  /** Other steps that are not logged. */
  lemma QuietStepKeepsWorker(d: Discipline, s: State, a: Action, v: Worker)
    requires !d.Unrestricted? && Inv(d, s) && Enabled(d, s, a) && (a.Open? || a.Lock? || a.Finish?)
    ensures WorkerInv(d, Step(d, s, a), v)
  {
    assert WorkerInv(d, s, v) && WorkerInv(d, s, a.w);
    assert EntryInv(s, KeyOf(PhaseOf(Step(d, s, a), a.w)));
  }

  /** What one more event changes in what the invariant says of an entry. */
  lemma EventAboutKey(s: State, e: Event, key: TimeKey)
    ensures IsCompleted(s.log + [e], key) <==> IsCompleted(s.log, key) || (e.Completed? && e.key == key)
    ensures AllLeft(s.log, key) && !(e.Processed? && e.key == key) ==> AllLeft(s.log + [e], key)
    ensures Pushed(key) in s.log ==> Pushed(key) in s.log + [e]
  {
    CompletedExtend(s.log, e, key);
    if AllLeft(s.log, key) && !(e.Processed? && e.key == key) {
      AllLeftExtend(s.log, e, key);
    }
  }

  /** Steps of the queue's other users, and of a worker that stops. */
  lemma OutsideStepKeepsWorker(d: Discipline, s: State, a: Action, v: Worker)
    requires !d.Unrestricted? && Inv(d, s) && Enabled(d, s, a) && (a.Push? || a.Remove? || a.Stop?)
    ensures WorkerInv(d, Step(d, s, a), v)
  {
    var t := Step(d, s, a);
    assert WorkerInv(d, s, v);
    if a.Stop? {
      assert WorkerInv(d, s, a.w);
    }
    EventAboutKey(s, t.log[|s.log|], KeyOf(PhaseOf(s, v)));
    assert t.log == s.log + [t.log[|s.log|]];
  }

  /** Processing and deleting, by the worker that has the lock. */
  lemma WorkStepKeepsWorker(d: Discipline, s: State, a: Action, v: Worker)
    requires !d.Unrestricted? && Inv(d, s) && Enabled(d, s, a) && (a.Work? || a.Delete?)
    ensures WorkerInv(d, Step(d, s, a), v)
  {
    var t := Step(d, s, a);
    assert WorkerInv(d, s, v) && WorkerInv(d, s, a.w);
    EventAboutKey(s, t.log[|s.log|], KeyOf(PhaseOf(s, v)));
    assert t.log == s.log + [t.log[|s.log|]];
  }

  lemma StepKeepsWorker(d: Discipline, s: State, a: Action, v: Worker)
    requires !d.Unrestricted? && Inv(d, s) && Enabled(d, s, a)
    ensures WorkerInv(d, Step(d, s, a), v)
  {
    if a.Recheck? || a.LockLazily? {
      ReadyStepKeepsWorker(d, s, a, v);
    } else if a.Open? || a.Lock? || a.Finish? {
      QuietStepKeepsWorker(d, s, a, v);
    } else if a.Work? || a.Delete? {
      WorkStepKeepsWorker(d, s, a, v);
    } else {
      OutsideStepKeepsWorker(d, s, a, v);
    }
  }

  lemma StepKeepsSerial(d: Discipline, s: State, a: Action)
    requires Inv(d, s) && Enabled(d, s, a)
    ensures SerialInv(d, Step(d, s, a))
  {
    var t := Step(d, s, a);
    if d.OneAtATime? {
      forall v, w | v != w
        ensures PhaseOf(t, v).Idle? || PhaseOf(t, w).Idle?
      {
        assert PhaseOf(s, v).Idle? || PhaseOf(s, w).Idle?;
      }
    }
  }

  lemma StepKeepsEntry(d: Discipline, s: State, a: Action, key: TimeKey)
    requires Inv(d, s) && Enabled(d, s, a)
    ensures EntryInv(Step(d, s, a), key)
  {
    var t := Step(d, s, a);
    assert EntryInv(s, key);
    if t.log != s.log {
      CompletedExtend(s.log, t.log[|s.log|], key);
      assert t.log == s.log + [t.log[|s.log|]];
      if a.Delete? {
        assert WorkerInv(d, s, a.w);
      }
      if a.Remove? {
        assert EntryInv(s, a.key);
      }
      assert t.log[|s.log|] in t.log;
    }
  }

  lemma StepKeepsProcessing(d: Discipline, s: State, a: Action)
    requires Inv(d, s) && Enabled(d, s, a)
    ensures ProcessingInv(Step(d, s, a))
  {
    var t := Step(d, s, a);
    forall i | 0 <= i < |t.log| && t.log[i].Processed? && !LeavesBetween(t.log, i, |t.log|)
      ensures PhaseOf(t, t.log[i].w) == Handled(t.log[i].key) || IsCompleted(t.log, t.log[i].key)
    {
      if t.log != s.log {
        var e := t.log[|s.log|];
        assert t.log == s.log + [e];
        CompletedExtend(s.log, e, t.log[i].key);
        if i < |s.log| {
          LeavesExtend(s.log, e, i, |s.log|);
        } else if a.Work? && PhaseOf(s, a.w).Claimed? {
          assert WorkerInv(d, s, a.w);
        }
      }
    }
  }

  lemma StepKeepsLogProperties(d: Discipline, s: State, a: Action)
    requires Inv(d, s) && Enabled(d, s, a)
    ensures CompletedOnce(Step(d, s, a).log) && RepeatedOnlyAfterStop(Step(d, s, a).log)
  {
    var t := Step(d, s, a);
    if t.log != s.log {
      var n, e := |s.log|, t.log[|s.log|];
      assert t.log == s.log + [e];
      if a.Work? || a.Delete? {
        assert WorkerInv(d, s, a.w);
      }
      forall i, j | 0 <= i < j < |t.log| && t.log[i].Processed? && t.log[j].Processed? && t.log[i].key == t.log[j].key
        ensures LeavesBetween(t.log, i, j)
      {
        assert t.log[i] == s.log[i];
        if j < n {
          assert t.log[j] == s.log[j];
          assert LeavesBetween(s.log, i, j);
          LeavesExtend(s.log, e, i, j);
        } else {
          assert AllLeft(s.log, e.key) && LeavesBetween(s.log, i, n);
          LeavesExtend(s.log, e, i, n);
        }
      }
    }
  }

  lemma StepKeepsInv(d: Discipline, s: State, a: Action)
    requires !d.Unrestricted? && Inv(d, s) && Enabled(d, s, a)
    ensures Inv(d, Step(d, s, a))
  {
    forall v { StepKeepsWorker(d, s, a, v); }
    StepKeepsSerial(d, s, a);
    forall key { StepKeepsEntry(d, s, a, key); }
    StepKeepsProcessing(d, s, a);
    StepKeepsLogProperties(d, s, a);
  }

  lemma {:induction false} RunKeepsInv(d: Discipline, s: State, actions: seq<Action>, t: State)
    requires !d.Unrestricted? && Inv(d, s) && Run(d, s, actions, t)
    ensures Inv(d, t)
    decreases |actions|
  {
    if actions != [] {
      StepKeepsInv(d, s, actions[0]);
      RunKeepsInv(d, Step(d, s, actions[0]), actions[1..], t);
    }
  }

  // ---- The theorems

  /** No entry is completed twice, by whatever workers, however they interleave and stop. */
  lemma CompletedAtMostOnce(d: Discipline, actions: seq<Action>, t: State)
    requires !d.Unrestricted? && Run(d, INITIAL, actions, t)
    ensures CompletedOnce(t.log)
  {
    RunKeepsInv(d, INITIAL, actions, t);
  }

  /** An entry is processed again only if whoever processed it before stopped before it was done. */
  lemma ProcessedAgainOnlyAfterStop(d: Discipline, actions: seq<Action>, t: State)
    requires !d.Unrestricted? && Run(d, INITIAL, actions, t)
    ensures RepeatedOnlyAfterStop(t.log)
  {
    RunKeepsInv(d, INITIAL, actions, t);
  }

  /** Two workers never hold the same entry between looking again and letting go. */
  lemma WorkersExcludeEachOther(d: Discipline, actions: seq<Action>, t: State, v: Worker, w: Worker)
    requires !d.Unrestricted? && Run(d, INITIAL, actions, t)
    requires HasLock(PhaseOf(t, v)) && HasLock(PhaseOf(t, w)) && PhaseOf(t, v).key == PhaseOf(t, w).key
    ensures v == w
  {
    RunKeepsInv(d, INITIAL, actions, t);
    assert WorkerInv(d, t, v) && WorkerInv(d, t, w);
  }

  /** An entry is there from its push until a worker completes it or an outsider removes it. */
  lemma NothingIsLost(d: Discipline, actions: seq<Action>, t: State, key: TimeKey)
    requires !d.Unrestricted? && Run(d, INITIAL, actions, t)
    requires Pushed(key) in t.log && Removed(key) !in t.log
    ensures key in t.present <==> !IsCompleted(t.log, key)
  {
    RunKeepsInv(d, INITIAL, actions, t);
    assert EntryInv(t, key);
  }

  // ---- What the two modes promise

  predicate AllOpenWith(actions: seq<Action>, mode: Mode) {
    forall i :: 0 <= i < |actions| && actions[i].Open? ==> actions[i].mode == mode
  }

  ghost predicate ProcessedBefore(log: seq<Event>, w: Worker, key: TimeKey, j: nat)
    requires j <= |log|
  {
    exists i :: 0 <= i < j && log[i] == Processed(w, key)
  }

  ghost predicate DeletesLast(s: State, w: Worker) {
    var ph := PhaseOf(s, w);
    && !ph.Claimed? && (ph.Ready? || ph.Opened? || ph.Locked? ==> ph.mode.DeleteLast?)
    && (ph.Handled? ==> ProcessedBefore(s.log, w, ph.key, |s.log|))
  }

  ghost predicate DeleteLastInv(s: State) {
    && (forall w :: DeletesLast(s, w))
    && (forall j :: 0 <= j < |s.log| && s.log[j].Completed? ==> ProcessedBefore(s.log, s.log[j].w, s.log[j].key, j))
  }

  lemma ProcessedBeforeExtend(log: seq<Event>, e: Event, w: Worker, key: TimeKey, j: nat)
    requires j <= |log| && ProcessedBefore(log, w, key, j)
    ensures ProcessedBefore(log + [e], w, key, j) && ProcessedBefore(log + [e], w, key, |log| + 1)
  {
    var i :| 0 <= i < j && log[i] == Processed(w, key);
    assert (log + [e])[i] == log[i];
  }

  lemma StepKeepsDeleteLast(d: Discipline, s: State, a: Action)
    requires DeleteLastInv(s) && Enabled(d, s, a) && (a.Open? ==> a.mode.DeleteLast?)
    ensures DeleteLastInv(Step(d, s, a))
  {
    var t := Step(d, s, a);
    var n := |s.log|;
    forall w
      ensures DeletesLast(t, w)
    {
      assert DeletesLast(s, w);
      if |t.log| > n {
        assert t.log == s.log + [t.log[n]];
        if PhaseOf(s, w).Handled? {
          ProcessedBeforeExtend(s.log, t.log[n], w, PhaseOf(s, w).key, n);
        } else if PhaseOf(t, w).Handled? {
          assert t.log[n] == Processed(w, PhaseOf(t, w).key);
        }
      }
    }
    forall j | 0 <= j < |t.log| && t.log[j].Completed?
      ensures ProcessedBefore(t.log, t.log[j].w, t.log[j].key, j)
    {
      if |t.log| > n {
        assert t.log == s.log + [t.log[n]];
        if j == n {
          assert DeletesLast(s, a.w);
        }
        ProcessedBeforeExtend(s.log, t.log[n], t.log[j].w, t.log[j].key, j);
      }
    }
  }

  lemma {:induction false} DeleteLastRun(d: Discipline, s: State, actions: seq<Action>, t: State)
    requires DeleteLastInv(s) && Run(d, s, actions, t) && AllOpenWith(actions, DeleteLast)
    ensures DeleteLastInv(t)
    decreases |actions|
  {
    if actions != [] {
      StepKeepsDeleteLast(d, s, actions[0]);
      DeleteLastRun(d, Step(d, s, actions[0]), actions[1..], t);
    }
  }

  ghost predicate IsProcessed(log: seq<Event>, key: TimeKey) {
    exists i :: 0 <= i < |log| && log[i].Processed? && log[i].key == key
  }

  ghost predicate DeletesFirst(s: State, w: Worker) {
    var ph := PhaseOf(s, w);
    && !ph.Handled? && (ph.Ready? || ph.Opened? || ph.Locked? ==> ph.mode.DeleteFirst?)
    && (ph.Claimed? ==> !IsProcessed(s.log, ph.key))
  }

  ghost predicate DeleteFirstInv(s: State) {
    && (forall w :: DeletesFirst(s, w))
    && (forall key :: IsProcessed(s.log, key) ==> IsCompleted(s.log, key))
    && (forall i, j :: 0 <= i < j < |s.log| && s.log[i].Processed? && s.log[j].Processed? ==>
         s.log[i].key != s.log[j].key)
  }

  lemma ProcessedExtend(log: seq<Event>, e: Event, key: TimeKey)
    ensures IsProcessed(log + [e], key) <==> IsProcessed(log, key) || (e.Processed? && e.key == key)
  {
    var log1 := log + [e];
    assert forall i :: 0 <= i < |log| ==> log1[i] == log[i];
    assert log1[|log|] == e;
  }

  lemma StepKeepsDeleteFirst(d: Discipline, s: State, a: Action)
    requires !d.Unrestricted? && Inv(d, s) && DeleteFirstInv(s) && Enabled(d, s, a)
    requires a.Open? ==> a.mode.DeleteFirst?
    ensures DeleteFirstInv(Step(d, s, a))
  {
    var t := Step(d, s, a);
    var n := |s.log|;
    if a.Work? || a.Delete? || a.Stop? {
      assert WorkerInv(d, s, a.w) && DeletesFirst(s, a.w);
    }
    forall w
      ensures DeletesFirst(t, w)
    {
      assert DeletesFirst(s, w) && WorkerInv(d, s, w);
      if |t.log| > n && PhaseOf(t, w).Claimed? {
        assert t.log == s.log + [t.log[n]];
        ProcessedExtend(s.log, t.log[n], PhaseOf(t, w).key);
      }
    }
    forall key | IsProcessed(t.log, key)
      ensures IsCompleted(t.log, key)
    {
      if |t.log| > n {
        assert t.log == s.log + [t.log[n]];
        ProcessedExtend(s.log, t.log[n], key);
        CompletedExtend(s.log, t.log[n], key);
      }
    }
  }

  lemma {:induction false} DeleteFirstRun(d: Discipline, s: State, actions: seq<Action>, t: State)
    requires !d.Unrestricted? && Inv(d, s) && DeleteFirstInv(s)
    requires Run(d, s, actions, t) && AllOpenWith(actions, DeleteFirst)
    ensures DeleteFirstInv(t)
    decreases |actions|
  {
    if actions != [] {
      StepKeepsDeleteFirst(d, s, actions[0]);
      StepKeepsInv(d, s, actions[0]);
      DeleteFirstRun(d, Step(d, s, actions[0]), actions[1..], t);
    }
  }

  /** If all delete first, no entry is ever processed twice, not even after a crash. */
  lemma DeleteFirstProcessesAtMostOnce(d: Discipline, actions: seq<Action>, t: State, i: nat, j: nat)
    requires !d.Unrestricted? && Run(d, INITIAL, actions, t) && AllOpenWith(actions, DeleteFirst)
    requires i < |t.log| && j < |t.log| && t.log[i].Processed? && t.log[j].Processed?
    requires t.log[i].key == t.log[j].key
    ensures i == j
  {
    DeleteFirstRun(d, INITIAL, actions, t);
  }

  /** If all delete last, an entry goes away only after the same worker processed it. */
  lemma DeleteLastProcessesBeforeCompletion(d: Discipline, actions: seq<Action>, t: State, j: nat)
    requires Run(d, INITIAL, actions, t) && AllOpenWith(actions, DeleteLast)
    requires j < |t.log| && t.log[j].Completed?
    ensures exists i :: 0 <= i < j && t.log[i] == Processed(t.log[j].w, t.log[j].key)
  {
    DeleteLastRun(d, INITIAL, actions, t);
    assert ProcessedBefore(t.log, t.log[j].w, t.log[j].key, j);
  }

  // ---- What happens without looking again

  const K := TimeKey(1, 1, 1)
  const BOTH_OPEN := State({K}, map[], map[1 := Opened(K, DeleteLast), 2 := Opened(K, DeleteLast)], [Pushed(K)])
  const FIRST_DONE := State({}, map[], map[1 := Idle, 2 := Opened(K, DeleteLast)],
    [Pushed(K), Processed(1, K), Completed(1, K)])
  const BOTH_DONE := State({}, map[K := 2], map[1 := Idle, 2 := Gone(K)],
    [Pushed(K), Processed(1, K), Completed(1, K), Processed(2, K), Completed(2, K)])

  lemma RunCons(d: Discipline, s: State, a: Action, rest: seq<Action>, t: State)
    requires Enabled(d, s, a) && Run(d, Step(d, s, a), rest, t)
    ensures Run(d, s, [a] + rest, t)
  {
    assert ([a] + rest)[1..] == rest;
  }

  lemma {:induction false} RunAppend(d: Discipline, s: State, a: seq<Action>, t: State, b: seq<Action>, u: State)
    requires Run(d, s, a, t) && Run(d, t, b, u)
    ensures Run(d, s, a + b, u)
    decreases |a|
  {
    if a == [] {
      assert a + b == b;
    } else {
      assert (a + b)[1..] == a[1..] + b;
      RunAppend(d, Step(d, s, a[0]), a[1..], t, b, u);
    }
  }

  lemma BothOpen()
    ensures Run(Unrestricted, INITIAL, [Push(K)] + [Open(1, K, DeleteLast)] + [Open(2, K, DeleteLast)], BOTH_OPEN)
  {
    var d := Unrestricted;
    var s1 := Step(d, INITIAL, Push(K));
    var s2 := Step(d, s1, Open(1, K, DeleteLast));
    assert Step(d, s2, Open(2, K, DeleteLast)) == BOTH_OPEN;
    RunCons(d, s2, Open(2, K, DeleteLast), [], BOTH_OPEN);
    RunCons(d, s1, Open(1, K, DeleteLast), [Open(2, K, DeleteLast)], BOTH_OPEN);
    RunCons(d, INITIAL, Push(K), [Open(1, K, DeleteLast)] + [Open(2, K, DeleteLast)], BOTH_OPEN);
  }

  lemma FirstDone()
    ensures Run(Unrestricted, BOTH_OPEN, [LockLazily(1)] + ([Work(1)] + ([Delete(1)] + [Finish(1)])), FIRST_DONE)
  {
    var d := Unrestricted;
    var s1 := Step(d, BOTH_OPEN, LockLazily(1));
    var s2 := Step(d, s1, Work(1));
    var s3 := Step(d, s2, Delete(1));
    assert Step(d, s3, Finish(1)) == FIRST_DONE;
    RunCons(d, s3, Finish(1), [], FIRST_DONE);
    RunCons(d, s2, Delete(1), [Finish(1)], FIRST_DONE);
    RunCons(d, s1, Work(1), [Delete(1)] + [Finish(1)], FIRST_DONE);
    RunCons(d, BOTH_OPEN, LockLazily(1), [Work(1)] + ([Delete(1)] + [Finish(1)]), FIRST_DONE);
  }

  lemma SecondDone()
    ensures Run(Unrestricted, FIRST_DONE, [LockLazily(2)] + ([Work(2)] + [Delete(2)]), BOTH_DONE)
  {
    var d := Unrestricted;
    var s1 := Step(d, FIRST_DONE, LockLazily(2));
    var s2 := Step(d, s1, Work(2));
    assert Step(d, s2, Delete(2)) == BOTH_DONE;
    RunCons(d, s2, Delete(2), [], BOTH_DONE);
    RunCons(d, s1, Work(2), [Delete(2)], BOTH_DONE);
    RunCons(d, FIRST_DONE, LockLazily(2), [Work(2)] + [Delete(2)], BOTH_DONE);
  }

  /** Two workers that lock lazily both run and complete the same entry, and neither stopped. */
  lemma LazyLockingRepeatsWork() returns (actions: seq<Action>)
    ensures Run(Unrestricted, INITIAL, actions, BOTH_DONE)
    ensures !CompletedOnce(BOTH_DONE.log) && !RepeatedOnlyAfterStop(BOTH_DONE.log)
  {
    BothOpen();
    FirstDone();
    SecondDone();
    var a := [Push(K)] + [Open(1, K, DeleteLast)] + [Open(2, K, DeleteLast)];
    var b := [LockLazily(1)] + ([Work(1)] + ([Delete(1)] + [Finish(1)]));
    var c := [LockLazily(2)] + ([Work(2)] + [Delete(2)]);
    RunAppend(Unrestricted, BOTH_OPEN, b, FIRST_DONE, c, BOTH_DONE);
    RunAppend(Unrestricted, INITIAL, a, BOTH_OPEN, b + c, BOTH_DONE);
    actions := a + (b + c);
    var log := BOTH_DONE.log;
    assert log[2] == Completed(1, K) && log[4] == Completed(2, K);
    assert log[1] == Processed(1, K) && log[3] == Processed(2, K) && !LeavesBetween(log, 1, 3);
  }

  ghost predicate AlwaysOnce(d: Discipline) {
    forall actions, t :: Run(d, INITIAL, actions, t) ==> CompletedOnce(t.log)
  }

  /** So a completion is unique in all runs if and only if the users follow one of the disciplines. */
  lemma OnceExactlyUnderDiscipline(d: Discipline)
    ensures AlwaysOnce(d) <==> !d.Unrestricted?
  {
    if d.Unrestricted? {
      var actions := LazyLockingRepeatsWork();
      assert Run(d, INITIAL, actions, BOTH_DONE) && !CompletedOnce(BOTH_DONE.log);
    } else {
      forall actions, t | Run(d, INITIAL, actions, t)
        ensures CompletedOnce(t.log)
      {
        CompletedAtMostOnce(d, actions, t);
      }
    }
  }

  /** Whenever a worker locks lazily, the entry is there: what looking again would have found. */
  predicate LocksOnlyPresent(d: Discipline, s: State, actions: seq<Action>)
    decreases |actions|
  {
    actions == [] || !Enabled(d, s, actions[0]) ||
    ((actions[0].LockLazily? ==> PhaseOf(s, actions[0].w).key in s.present)
     && LocksOnlyPresent(d, Step(d, s, actions[0]), actions[1..]))
  }

  /** Such a run, whatever else its users do, comes to the state of a run in which all look again. */
  lemma {:induction false} LazyIsRechecking(s: State, actions: seq<Action>, t: State) returns (rechecking: seq<Action>)
    requires Run(Unrestricted, s, actions, t) && LocksOnlyPresent(Unrestricted, s, actions)
    ensures Run(Rechecking, s, rechecking, t)
    decreases |actions|
  {
    if actions == [] {
      rechecking := [];
    } else {
      var a, next := actions[0], Step(Unrestricted, s, actions[0]);
      var rest := LazyIsRechecking(next, actions[1..], t);
      if a.LockLazily? {
        var locked := Step(Rechecking, s, Lock(a.w));
        assert Step(Rechecking, locked, Recheck(a.w)) == next by {
          assert locked.phases[a.w := PhaseOf(next, a.w)] == next.phases;
        }
        RunCons(Rechecking, locked, Recheck(a.w), rest, t);
        rechecking := [Lock(a.w)] + ([Recheck(a.w)] + rest);
        RunCons(Rechecking, s, Lock(a.w), [Recheck(a.w)] + rest, t);
      } else {
        rechecking := [a] + rest;
        RunCons(Rechecking, s, a, rest, t);
      }
    }
  }

  /** So locking lazily does no harm in a run in which it only ever locks entries that are there. */
  lemma OnceWhenLocksFindTheEntry(actions: seq<Action>, t: State)
    requires Run(Unrestricted, INITIAL, actions, t) && LocksOnlyPresent(Unrestricted, INITIAL, actions)
    ensures CompletedOnce(t.log) && RepeatedOnlyAfterStop(t.log)
  {
    var rechecking := LazyIsRechecking(INITIAL, actions, t);
    CompletedAtMostOnce(Rechecking, rechecking, t);
    ProcessedAgainOnlyAfterStop(Rechecking, rechecking, t);
  }

  // ---- After a crash

  /**
   An entry whose worker stopped stays available: whoever has its lock, once that worker has stopped a
   fresh worker can lock, look again, process and complete the entry.
   */
  lemma TakeOverAfterStop(actions: seq<Action>, t: State, key: TimeKey, owner: Worker, w: Worker)
    returns (more: seq<Action>, u: State)
    requires Run(Rechecking, INITIAL, actions, t) && key in t.present
    requires PhaseOf(t, owner).Ready? || PhaseOf(t, owner).Handled? || PhaseOf(t, owner).Locked?
    requires PhaseOf(t, owner).key == key && PhaseOf(t, w).Idle?
    ensures Run(Rechecking, t, [Stop(owner)] + more, u)
    ensures u.log == t.log + [Left(owner), Processed(w, key), Completed(w, key)]
  {
    var d := Rechecking;
    RunKeepsInv(d, INITIAL, actions, t);
    assert WorkerInv(d, t, owner);
    var t0 := Step(d, t, Stop(owner));
    var t1 := Step(d, t0, Open(w, key, DeleteLast));
    var t2 := Step(d, t1, Lock(w));
    var t3 := Step(d, t2, Recheck(w));
    assert PhaseOf(t3, w) == Ready(key, DeleteLast) && t3.log == t.log + [Left(owner)];
    u := CompleteReady(t3, w);
    RunCons(d, t2, Recheck(w), [Work(w), Delete(w)], u);
    RunCons(d, t1, Lock(w), [Recheck(w)] + [Work(w), Delete(w)], u);
    more := [Lock(w)] + ([Recheck(w)] + [Work(w), Delete(w)]);
    RunCons(d, t0, Open(w, key, DeleteLast), more, u);
    more := [Open(w, key, DeleteLast)] + more;
    RunCons(d, t, Stop(owner), more, u);
  }

  lemma CompleteReady(s: State, w: Worker) returns (t: State)
    requires PhaseOf(s, w).Ready? && PhaseOf(s, w).mode.DeleteLast?
    ensures Run(Rechecking, s, [Work(w), Delete(w)], t)
    ensures t.log == s.log + [Processed(w, PhaseOf(s, w).key), Completed(w, PhaseOf(s, w).key)]
  {
    var d := Rechecking;
    var s1 := Step(d, s, Work(w));
    t := Step(d, s1, Delete(w));
    RunCons(d, s1, Delete(w), [], t);
    RunCons(d, s, Work(w), [Delete(w)], t);
    assert [Work(w), Delete(w)] == [Work(w)] + ([Delete(w)] + []);
  }
}
