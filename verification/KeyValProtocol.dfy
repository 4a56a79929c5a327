module KeyValProtocol {
  // Any number of processes inserting into, deleting from and reading one table, and crashing between any two steps.

  import opened Wrappers
  import opened FileStore

  type Process = nat

  datatype Insertion = Insertion(key: Key, valstr: string, exclusive: bool)

  /** Where a process is inside `insert`; everything after `Waiting` is under the table lock. */
  datatype Phase =
    | Idle
    | Waiting(op: Insertion)
    | Locked(op: Insertion)
    | Checked(op: Insertion)
    | Writing(op: Insertion, inode: Inode, written: nat)
    | Leaving

  /** An open file of a reader, with the value that the table held for the key at the opening. */
  datatype Handle = Handle(key: Key, inode: Inode, atOpen: string)

  /** The moments at which a call takes its effect. */
  datatype Event =
    | Published(op: Insertion)
    | Refused(op: Insertion)
    | Deleted(key: Key)

  datatype State = State(
    fs: Fs,
    owner: Option<Process>,         // of the exclusive lock on the directory
    phases: map<Process, Phase>,
    handles: map<nat, Handle>,
    log: seq<Event>
  )

  datatype Action =
    | Start(p: Process, op: Insertion)
    | Acquire(p: Process)
    | Check(p: Process)
    | Create(p: Process)
    | Write(p: Process, n: nat)
    | Publish(p: Process)
    | Release(p: Process)
    | Crash(p: Process)
    | Delete(key: Key)
    | Open(reader: nat, key: Key)

  const INITIAL := State(EMPTY_FS, None, map[], map[], [])

  function PhaseOf(s: State, p: Process): Phase {
    if p in s.phases then s.phases[p] else Idle
  }

  predicate InCriticalSection(phase: Phase) {
    !phase.Idle? && !phase.Waiting?
  }

  predicate Enabled(s: State, a: Action) {
    match a
    case Start(p, _) => PhaseOf(s, p).Idle?
    case Acquire(p) => PhaseOf(s, p).Waiting? && s.owner.None?
    case Check(p) => PhaseOf(s, p).Locked?
    case Create(p) => PhaseOf(s, p).Checked?
    case Write(p, n) =>
      var ph := PhaseOf(s, p);
      ph.Writing? && ph.written + n <= |ph.op.valstr| && ph.inode in s.fs.data
    case Publish(p) =>
      var ph := PhaseOf(s, p);
      ph.Writing? && ph.written == |ph.op.valstr| && ph.op.key in s.fs.tmp
    case Release(p) => PhaseOf(s, p).Leaving?
    case Crash(p) => true
    case Delete(_) => true
    case Open(r, key) => key in s.fs.target && s.fs.target[key] in s.fs.data
  }

  function SetPhase(s: State, p: Process, phase: Phase): State {
    s.(phases := s.phases[p := phase])
  }

  function Step(s: State, a: Action): State
    requires Enabled(s, a)
  {
    match a
    case Start(p, op) => SetPhase(s, p, Waiting(op))
    case Acquire(p) => SetPhase(s, p, Locked(PhaseOf(s, p).op)).(owner := Some(p))
    case Check(p) =>
      var op := PhaseOf(s, p).op;
      if op.exclusive && op.key in s.fs.target then
        SetPhase(s, p, Leaving).(log := s.log + [Refused(op)])
      else
        SetPhase(s, p, Checked(op))
    case Create(p) =>
      var op := PhaseOf(s, p).op;
      var fs := CreateTmp(s.fs, op.key);
      SetPhase(s, p, Writing(op, fs.tmp[op.key], 0)).(fs := fs)
    case Write(p, n) =>
      var ph := PhaseOf(s, p);
      var fs := Append(s.fs, ph.inode, ph.op.valstr[ph.written..ph.written + n]);
      SetPhase(s, p, ph.(written := ph.written + n)).(fs := fs)
    case Publish(p) =>
      var op := PhaseOf(s, p).op;
      SetPhase(s, p, Leaving).(fs := Rename(s.fs, op.key), log := s.log + [Published(op)])
    case Release(p) => SetPhase(s, p, Idle).(owner := None)
    case Crash(p) => SetPhase(s, p, Idle).(owner := if s.owner == Some(p) then None else s.owner)
    case Delete(key) =>
      if key in s.fs.target then s.(fs := Remove(s.fs, key), log := s.log + [Deleted(key)]) else s
    case Open(r, key) =>
      var i := s.fs.target[key];
      s.(handles := s.handles[r := Handle(key, i, s.fs.data[i])])
  }

  /** `t` is reached from `s` by the actions, each enabled when it is taken. */
  predicate Run(s: State, actions: seq<Action>, t: State)
    decreases |actions|
  {
    if actions == [] then s == t
    else Enabled(s, actions[0]) && Run(Step(s, actions[0]), actions[1..], t)
  }

  // ---- The specification: a map changed by one atomic operation after the other

  function Effect(m: map<Key, string>, e: Event): map<Key, string> {
    match e
    case Published(op) => m[op.key := op.valstr]
    case Refused(_) => m
    case Deleted(key) => m - {key}
  }

  function Replay(log: seq<Event>): map<Key, string> {
    if log == [] then map[] else Effect(Replay(log[..|log| - 1]), log[|log| - 1])
  }

  /** What an atomic table holding `m` may answer. */
  predicate Allowed(m: map<Key, string>, e: Event) {
    match e
    case Published(op) => op.exclusive ==> op.key !in m
    case Refused(op) => op.exclusive && op.key in m
    case Deleted(key) => key in m
  }

  ghost predicate Legal(log: seq<Event>) {
    forall i :: 0 <= i < |log| ==> Allowed(Replay(log[..i]), log[i])
  }

  ghost predicate WasPublished(log: seq<Event>, key: Key, val: string) {
    exists i :: 0 <= i < |log| && log[i].Published? && log[i].op.key == key && log[i].op.valstr == val
  }

  // ---- The invariant

  ghost predicate PhaseInv(s: State, p: Process) {
    var ph := PhaseOf(s, p);
    && (InCriticalSection(ph) ==> s.owner == Some(p))
    && (ph.Checked? || ph.Writing? ==> ph.op.exclusive ==> ph.op.key !in s.fs.target)
    && (ph.Writing? ==>
         && ph.written <= |ph.op.valstr|
         && ph.op.key in s.fs.tmp && s.fs.tmp[ph.op.key] == ph.inode
         && ph.inode in s.fs.data && s.fs.data[ph.inode] == ph.op.valstr[..ph.written])
  }

  ghost predicate HandleInv(s: State, h: Handle) {
    && h.inode in s.fs.data && s.fs.data[h.inode] == h.atOpen
    && (forall k :: k in s.fs.tmp ==> s.fs.tmp[k] != h.inode)
    && WasPublished(s.log, h.key, h.atOpen)
  }

  ghost predicate TableInv(s: State) {
    WellFormed(s.fs) && View(s.fs) == Replay(s.log) && Legal(s.log)
  }

  ghost predicate Inv(s: State) {
    && TableInv(s)
    && (forall p :: PhaseInv(s, p))
    && (forall r :: r in s.handles ==> HandleInv(s, s.handles[r]))
  }

  lemma ReplayExtend(log: seq<Event>, e: Event)
    ensures Replay(log + [e]) == Effect(Replay(log), e)
  {
    assert (log + [e])[..|log|] == log;
  }

  lemma LegalExtend(log: seq<Event>, e: Event)
    requires Legal(log) && Allowed(Replay(log), e)
    ensures Legal(log + [e])
  {
    forall i | 0 <= i < |log + [e]|
      ensures Allowed(Replay((log + [e])[..i]), (log + [e])[i])
    {
      assert (log + [e])[..i] == log[..i];
      if i == |log| {
        assert log[..i] == log;
      }
    }
  }

  /** A value that the table holds was published. */
  lemma ReplayedWasPublished(log: seq<Event>, key: Key)
    requires key in Replay(log)
    ensures WasPublished(log, key, Replay(log)[key])
  {
    var front, e := log[..|log| - 1], log[|log| - 1];
    if !(e.Published? && e.op.key == key) {
      ReplayedWasPublished(front, key);
      var i :| 0 <= i < |front| && front[i].Published? && front[i].op.key == key
            && front[i].op.valstr == Replay(front)[key];
      assert log[i] == front[i];
    }
  }

  lemma PublishedStays(log: seq<Event>, e: Event, key: Key, val: string)
    requires WasPublished(log, key, val)
    ensures WasPublished(log + [e], key, val)
  {
    var i :| 0 <= i < |log| && log[i].Published? && log[i].op.key == key && log[i].op.valstr == val;
    assert (log + [e])[i] == log[i];
  }

  lemma StepKeepsTable(s: State, a: Action)
    requires Inv(s) && Enabled(s, a)
    ensures TableInv(Step(s, a))
  {
    match a {
    case Check(p) =>
      var op := PhaseOf(s, p).op;
      if op.exclusive && op.key in s.fs.target {
        ReplayExtend(s.log, Refused(op));
        LegalExtend(s.log, Refused(op));
      }
    case Create(p) =>
      CreatingTmpKeepsView(s.fs, PhaseOf(s, p).op.key);
    case Write(p, n) =>
      assert PhaseInv(s, p);
      var ph := PhaseOf(s, p);
      WritingTmpKeepsView(s.fs, ph.op.key, ph.op.valstr[ph.written..ph.written + n]);
    case Publish(p) =>
      assert PhaseInv(s, p);
      var op := PhaseOf(s, p).op;
      assert op.valstr[..|op.valstr|] == op.valstr;
      RenamePublishes(s.fs, op.key);
      ReplayExtend(s.log, Published(op));
      LegalExtend(s.log, Published(op));
    case Delete(key) =>
      if key in s.fs.target {
        RemoveUnpublishes(s.fs, key);
        ReplayExtend(s.log, Deleted(key));
        LegalExtend(s.log, Deleted(key));
      }
    case _ =>
    }
  }

  /** The process that a step is of. */
  function Actor(a: Action): Option<Process> {
    match a
    case Delete(_) => None
    case Open(_, _) => None
    case _ => Some(a.p)
  }

  lemma StepKeepsOwnPhase(s: State, a: Action)
    requires Inv(s) && Enabled(s, a) && Actor(a).Some?
    ensures PhaseInv(Step(s, a), a.p)
  {
    assert PhaseInv(s, a.p);
  }

  lemma StepKeepsOtherPhase(s: State, a: Action, q: Process)
    requires Inv(s) && Enabled(s, a) && Actor(a) != Some(q)
    ensures PhaseInv(Step(s, a), q)
  {
    assert PhaseInv(s, q);
    if Actor(a).Some? {
      assert PhaseInv(s, a.p);
    }
  }

  lemma StepKeepsPhase(s: State, a: Action, q: Process)
    requires Inv(s) && Enabled(s, a)
    ensures PhaseInv(Step(s, a), q)
  {
    if Actor(a) == Some(q) {
      StepKeepsOwnPhase(s, a);
    } else {
      StepKeepsOtherPhase(s, a, q);
    }
  }

  lemma StepKeepsHandle(s: State, a: Action, r: nat)
    requires Inv(s) && Enabled(s, a) && r in Step(s, a).handles
    ensures HandleInv(Step(s, a), Step(s, a).handles[r])
  {
    var t, h := Step(s, a), Step(s, a).handles[r];
    if a.Open? && a.reader == r {
      ReplayedWasPublished(s.log, a.key);
    } else {
      assert HandleInv(s, h);
      if t.log != s.log {
        PublishedStays(s.log, t.log[|s.log|], h.key, h.atOpen);
        assert t.log == s.log + [t.log[|s.log|]];
      }
      if a.Write? {
        assert PhaseInv(s, a.p);
      }
    }
  }

  lemma StepKeepsInv(s: State, a: Action)
    requires Inv(s) && Enabled(s, a)
    ensures Inv(Step(s, a))
  {
    StepKeepsTable(s, a);
    forall q { StepKeepsPhase(s, a, q); }
    forall r | r in Step(s, a).handles { StepKeepsHandle(s, a, r); }
  }

  lemma {:induction false} RunKeepsInv(s: State, actions: seq<Action>, t: State)
    requires Inv(s) && Run(s, actions, t)
    ensures Inv(t)
    decreases |actions|
  {
    if actions != [] {
      StepKeepsInv(s, actions[0]);
      RunKeepsInv(Step(s, actions[0]), actions[1..], t);
    }
  }

  // ---- The theorems

  /**
   Whatever processes do and wherever they crash, the table is at every moment the map that results
   from applying its log of atomic operations, and every operation answered as the map demanded.
   */
  lemma TableIsLinearizable(actions: seq<Action>, t: State)
    requires Run(INITIAL, actions, t)
    ensures WellFormed(t.fs) && View(t.fs) == Replay(t.log) && Legal(t.log)
  {
    RunKeepsInv(INITIAL, actions, t);
  }

  /** No file that is named after a key is ever seen partly written. */
  lemma FilesAreComplete(actions: seq<Action>, t: State, key: Key)
    requires Run(INITIAL, actions, t) && key in t.fs.target
    ensures t.fs.target[key] in t.fs.data
    ensures WasPublished(t.log, key, t.fs.data[t.fs.target[key]])
  {
    RunKeepsInv(INITIAL, actions, t);
    assert key in View(t.fs);
    ReplayedWasPublished(t.log, key);
  }

  /** A reader gets the value that the table held when it opened the file, however late it reads. */
  lemma ReadersAreIsolated(actions: seq<Action>, t: State, r: nat)
    requires Run(INITIAL, actions, t) && r in t.handles
    ensures t.handles[r].inode in t.fs.data
    ensures t.fs.data[t.handles[r].inode] == t.handles[r].atOpen
    ensures WasPublished(t.log, t.handles[r].key, t.handles[r].atOpen)
  {
    RunKeepsInv(INITIAL, actions, t);
  }

  /** Two processes are never inside the locked part of `insert` at once. */
  lemma InsertionsExcludeEachOther(actions: seq<Action>, t: State, p: Process, q: Process)
    requires Run(INITIAL, actions, t)
    requires InCriticalSection(PhaseOf(t, p)) && InCriticalSection(PhaseOf(t, q))
    ensures p == q
  {
    RunKeepsInv(INITIAL, actions, t);
    assert PhaseInv(t, p) && PhaseInv(t, q);
  }

  /** An exclusive insertion succeeds at most once between two deletions of its key. */
  lemma ExclusiveInsertOncePerDeletion(actions: seq<Action>, t: State, i: nat, j: nat)
    requires Run(INITIAL, actions, t)
    requires i < j < |t.log| && t.log[i].Published? && t.log[j].Published?
    requires t.log[i].op.key == t.log[j].op.key && t.log[j].op.exclusive
    ensures exists d :: i < d < j && t.log[d] == Deleted(t.log[i].op.key)
  {
    RunKeepsInv(INITIAL, actions, t);
    var key := t.log[i].op.key;
    if forall d :: i < d < j ==> t.log[d] != Deleted(key) {
      KeyStaysUntilDeleted(t.log, key, i, j);
      assert false;
    }
  }

  lemma {:induction false} KeyStaysUntilDeleted(log: seq<Event>, key: Key, i: nat, j: nat)
    requires i < j <= |log| && log[i].Published? && log[i].op.key == key
    requires forall d :: i < d < j ==> log[d] != Deleted(key)
    ensures key in Replay(log[..j])
  {
    assert log[..j] == log[..j - 1] + [log[j - 1]];
    ReplayExtend(log[..j - 1], log[j - 1]);
    if i < j - 1 {
      KeyStaysUntilDeleted(log, key, i, j - 1);
    }
  }

  lemma RunCons(s: State, a: Action, rest: seq<Action>, t: State)
    requires Enabled(s, a) && Run(Step(s, a), rest, t)
    ensures Run(s, [a] + rest, t)
  {
    assert ([a] + rest)[1..] == rest;
  }

  lemma RunTwo(s: State, a: Action, b: Action)
    requires Enabled(s, a) && Enabled(Step(s, a), b)
    ensures Run(s, [a, b], Step(Step(s, a), b))
  {
    assert [a, b][1..] == [b] && [b][1..] == [];
  }

  lemma {:induction false} RunAppend(s: State, a: seq<Action>, t: State, b: seq<Action>, u: State)
    requires Run(s, a, t) && Run(t, b, u)
    ensures Run(s, a + b, u)
    decreases |a|
  {
    if a == [] {
      assert a + b == b;
    } else {
      assert (a + b)[1..] == a[1..] + b;
      RunAppend(Step(s, a[0]), a[1..], t, b, u);
    }
  }

  /** The way of an idle process to the point where it may write. */
  lemma EnterRun(s: State, p: Process, op: Insertion) returns (t: State)
    requires Inv(s) && s.owner.None? && PhaseOf(s, p).Idle?
    requires op.exclusive ==> op.key !in s.fs.target
    ensures Run(s, [Start(p, op), Acquire(p), Check(p)], t) && Inv(t)
    ensures t.fs == s.fs && t.log == s.log && PhaseOf(t, p) == Checked(op)
  {
    var s1 := Step(s, Start(p, op));
    StepKeepsInv(s, Start(p, op));
    var s2 := Step(s1, Acquire(p));
    StepKeepsInv(s1, Acquire(p));
    t := Step(s2, Check(p));
    StepKeepsInv(s2, Check(p));
    RunCons(s2, Check(p), [], t);
    RunCons(s1, Acquire(p), [Check(p)], t);
    RunCons(s, Start(p, op), [Acquire(p), Check(p)], t);
    assert [Start(p, op), Acquire(p), Check(p)] == [Start(p, op)] + ([Acquire(p)] + ([Check(p)] + []));
  }

  /** Writing the temporary file to the end. */
  lemma FillRun(s: State, p: Process) returns (t: State)
    requires Inv(s) && PhaseOf(s, p).Checked?
    ensures Run(s, [Create(p), Write(p, |PhaseOf(s, p).op.valstr|)], t) && Inv(t)
    ensures View(t.fs) == View(s.fs) && t.log == s.log
    ensures PhaseOf(t, p).Writing? && PhaseOf(t, p).op == PhaseOf(s, p).op
    ensures PhaseOf(t, p).written == |PhaseOf(s, p).op.valstr|
  {
    var n := |PhaseOf(s, p).op.valstr|;
    var s1 := Step(s, Create(p));
    StepKeepsInv(s, Create(p));
    assert PhaseInv(s1, p);
    t := Step(s1, Write(p, n));
    StepKeepsInv(s1, Write(p, n));
    RunTwo(s, Create(p), Write(p, n));
  }

  /** Giving the complete temporary file the name of the key. */
  lemma PublishRun(s: State, p: Process) returns (t: State)
    requires Inv(s) && PhaseOf(s, p).Writing? && PhaseOf(s, p).written == |PhaseOf(s, p).op.valstr|
    ensures Run(s, [Publish(p), Release(p)], t) && Inv(t)
    ensures t.log == s.log + [Published(PhaseOf(s, p).op)]
    ensures t.owner.None? && PhaseOf(t, p).Idle?
  {
    assert PhaseInv(s, p);
    var s1 := Step(s, Publish(p));
    StepKeepsInv(s, Publish(p));
    t := Step(s1, Release(p));
    StepKeepsInv(s1, Release(p));
    RunTwo(s, Publish(p), Release(p));
  }

  /**
   A crash blocks nobody: wherever the lock owner `q` is, once it has crashed any idle process `p` can
   complete an insertion, over a left-over temporary file, with the effect of one atomic operation.
   */
  lemma InsertAfterCrash(actions: seq<Action>, t: State, q: Process, p: Process, op: Insertion)
    returns (more: seq<Action>, u: State)
    requires Run(INITIAL, actions, t)
    requires t.owner.Some? ==> t.owner.value == q
    requires PhaseOf(t, p).Idle?
    requires op.exclusive ==> op.key !in t.fs.target
    ensures Run(t, [Crash(q)] + more, u)
    ensures WellFormed(u.fs) && WellFormed(t.fs) && View(u.fs) == View(t.fs)[op.key := op.valstr]
    ensures u.owner.None? && PhaseOf(u, p).Idle? && u.log == t.log + [Published(op)]
  {
    RunKeepsInv(INITIAL, actions, t);
    StepKeepsInv(t, Crash(q));
    var t0 := Step(t, Crash(q));
    var t1 := EnterRun(t0, p, op);
    var t2 := FillRun(t1, p);
    u := PublishRun(t2, p);
    ReplayExtend(t.log, Published(op));
    var enter, fill, publish :=
      [Start(p, op), Acquire(p), Check(p)], [Create(p), Write(p, |op.valstr|)], [Publish(p), Release(p)];
    RunAppend(t1, fill, t2, publish, u);
    RunAppend(t0, enter, t1, fill + publish, u);
    more := enter + (fill + publish);
    RunCons(t, Crash(q), more, u);
  }
}
