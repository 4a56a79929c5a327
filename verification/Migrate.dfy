/** Migration of a table: values are read in an old format, and entries move to their new keys. */
module Migrate {
  import opened Wrappers
  import opened FileStore
  import opened KeyVal

  type Contents = map<Key, string>

  /**
   * What is particular to a table. `fromStr` gives the value in the current format and whether the
   * format was an old one. `sorted` is the order in which a map is iterated.
   */
  datatype Migration = Migration(
    fromStr: string -> Option<(string, bool)>,
    genKey: (Key, string) -> Key,
    handleConflict: (Key, string, string) -> Option<string>,
    sorted: set<Key> -> seq<Key>)

  /** A sequence with the elements of a set, each once. */
  ghost predicate Lists(keys: seq<Key>, s: set<Key>) {
    && (forall k :: k in keys <==> k in s)
    && (forall i, j :: 0 <= i < j < |keys| ==> keys[i] != keys[j])
  }

  ghost predicate Sorts(m: Migration) {
    forall s :: Lists(m.sorted(s), s)
  }

  predicate Readable(m: Migration, c: Contents) {
    forall k :: k in c ==> m.fromStr(c[k]).Some?
  }

  function NewValue(m: Migration, c: Contents, k: Key): string
    requires k in c && m.fromStr(c[k]).Some?
  {
    m.fromStr(c[k]).value.0
  }

  function NewKey(m: Migration, c: Contents, k: Key): Key
    requires k in c && m.fromStr(c[k]).Some?
  {
    m.genKey(k, NewValue(m, c, k))
  }

  predicate Moves(m: Migration, c: Contents, k: Key)
    requires k in c && m.fromStr(c[k]).Some?
  {
    NewKey(m, c, k) != k
  }

  predicate Touched(m: Migration, c: Contents, k: Key)
    requires k in c && m.fromStr(c[k]).Some?
  {
    m.fromStr(c[k]).value.1 || Moves(m, c, k)
  }

  // ---- Collecting the changes

  /** What is to be saved under one key: whether the key is a new one, and the value. */
  type Values = seq<(bool, string)>
  datatype Plan = Plan(saves: map<Key, Values>, deletions: set<Key>, count: nat)

  function Planned(plan: Plan, m: Migration, c: Contents, k: Key): Plan
    requires k in c && m.fromStr(c[k]).Some?
  {
    if !Touched(m, c, k) then plan
    else
      var new_, entry := NewKey(m, c, k), (Moves(m, c, k), NewValue(m, c, k));
      Plan(
        plan.saves[new_ := (if new_ in plan.saves then plan.saves[new_] else []) + [entry]],
        if Moves(m, c, k) then plan.deletions + {k} else plan.deletions,
        plan.count + 1)
  }

  function Collected(m: Migration, c: Contents, keys: seq<Key>): (plan: Plan)
    requires Readable(m, c) && forall k :: k in keys ==> k in c
    ensures forall k :: k in plan.saves ==> plan.saves[k] != []
  {
    if keys == [] then Plan(map[], {}, 0)
    else Planned(Collected(m, c, keys[..|keys| - 1]), m, c, keys[|keys| - 1])
  }

  // ---- Carrying them out

  /** Combines two values for one key, or refuses to. */
  type Handler<!V> = (Key, V, V) -> Option<V>

  /** The last value, with the others handled as conflicts from the first on. */
  function Merge<V>(handle: Handler<V>, k: Key, value: V, others: seq<(bool, V)>): Option<V> {
    if others == [] then Some(value)
    else
      var merged := Merge(handle, k, value, others[..|others| - 1]);
      if merged.None? then None else handle(k, merged.value, others[|others| - 1].1)
  }

  /** The table afterwards, and whether there was no error. */
  function Saved<V>(handle: Handler<V>, c: map<Key, V>, k: Key, values: seq<(bool, V)>): (map<Key, V>, bool)
    requires values != []
  {
    var others, last := values[..|values| - 1], values[|values| - 1];
    var merged := Merge(handle, k, last.1, others);
    if merged.None? then (c, false)
    else
      var exclusive := last.0 && others == [];
      if !(exclusive && k in c) then (c[k := merged.value], true)
      else
        var resolved := handle(k, c[k], merged.value);
        if resolved.None? then (c, false) else (c[k := resolved.value], true)
  }

  function SavedAll<V>(handle: Handler<V>, c: map<Key, V>, saves: map<Key, seq<(bool, V)>>, keys: seq<Key>)
    : (map<Key, V>, bool)
    requires forall k :: k in keys ==> k in saves && saves[k] != []
  {
    if keys == [] then (c, true)
    else
      var (before, ok) := SavedAll(handle, c, saves, keys[..|keys| - 1]);
      if !ok then (before, false) else Saved(handle, before, keys[|keys| - 1], saves[keys[|keys| - 1]])
  }

  function Migrated(m: Migration, c: Contents, keys: seq<Key>): (Contents, bool)
    requires Readable(m, c) && (forall k :: k in keys ==> k in c)
    requires var saves := Collected(m, c, keys).saves; forall k :: k in m.sorted(saves.Keys) ==> k in saves
  {
    var plan := Collected(m, c, keys);
    SavedAll(m.handleConflict, c - plan.deletions, plan.saves, m.sorted(plan.saves.Keys))
  }

  // ---- When nothing is lost

  ghost predicate Injective(m: Migration, c: Contents)
    requires Readable(m, c)
  {
    forall k, l :: k in c && l in c && k != l ==> NewKey(m, c, k) != NewKey(m, c, l)
  }

  /** What an entry contains when it is at its new key. */
  function NewText(m: Migration, c: Contents, k: Key): string
    requires k in c && m.fromStr(c[k]).Some?
  {
    if Touched(m, c, k) then NewValue(m, c, k) else c[k]
  }

  /** Every entry is at its new key, with its value, and there is nothing else. */
  ghost predicate AllMoved(m: Migration, c: Contents, after: Contents)
    requires Readable(m, c)
  {
    && (forall k :: k in c ==> NewKey(m, c, k) in after && after[NewKey(m, c, k)] == NewText(m, c, k))
    && (forall k :: k in after ==> exists l :: l in c && NewKey(m, c, l) == k)
  }

  /** One value is planned for the new key of each touched entry. */
  ghost predicate PlansEach(m: Migration, c: Contents, keys: seq<Key>, plan: Plan)
    requires Readable(m, c) && forall k :: k in keys ==> k in c
  {
    && (forall k :: k in keys && Touched(m, c, k) ==>
          var new_ := NewKey(m, c, k);
          new_ in plan.saves && plan.saves[new_] == [(Moves(m, c, k), NewValue(m, c, k))])
    && (forall k :: k in plan.saves ==> exists l :: l in keys && Touched(m, c, l) && NewKey(m, c, l) == k)
    && (forall k :: k in plan.deletions <==> k in keys && Moves(m, c, k))
  }

  lemma {:induction false} CollectedPlansEach(m: Migration, c: Contents, keys: seq<Key>)
    requires Readable(m, c) && Injective(m, c) && forall k :: k in keys ==> k in c
    requires forall i, j :: 0 <= i < j < |keys| ==> keys[i] != keys[j]
    ensures PlansEach(m, c, keys, Collected(m, c, keys))
  {
    if keys != [] {
      var front, last := keys[..|keys| - 1], keys[|keys| - 1];
      var plan := Collected(m, c, front);
      CollectedPlansEach(m, c, front);
      assert forall k :: k in keys <==> k in front || k == last;
      assert last !in front;
      if Touched(m, c, last) {
        assert NewKey(m, c, last) !in plan.saves;
      }
    }
  }

  /** The table without the deletions, with the saves of some keys done. */
  ghost predicate SavesDone(c: Contents, saves: map<Key, Values>, done: seq<Key>, after: Contents)
    requires forall k :: k in done ==> k in saves && saves[k] != []
  {
    && (forall k :: k in after <==> k in c || k in done)
    && (forall k :: k in done ==> k in after && after[k] == saves[k][0].1)
    && (forall k :: k in c && k !in done ==> k in after && after[k] == c[k])
  }

  lemma {:induction false} SavesSucceed(m: Migration, c: Contents, saves: map<Key, Values>, keys: seq<Key>)
    requires forall k :: k in keys ==> k in saves && |saves[k]| == 1
    requires forall k :: k in keys && saves[k][0].0 ==> k !in c
    requires forall i, j :: 0 <= i < j < |keys| ==> keys[i] != keys[j]
    ensures SavedAll(m.handleConflict, c, saves, keys).1
    ensures SavesDone(c, saves, keys, SavedAll(m.handleConflict, c, saves, keys).0)
  {
    if keys != [] {
      var front, last := keys[..|keys| - 1], keys[|keys| - 1];
      SavesSucceed(m, c, saves, front);
      assert forall k :: k in keys <==> k in front || k == last;
      assert last !in front;
      var before := SavedAll(m.handleConflict, c, saves, front).0;
      assert Saved(m.handleConflict, before, last, saves[last]) == (before[last := saves[last][0].1], true);
    }
  }

  lemma SavesPrecondition(m: Migration, c: Contents, keys: seq<Key>)
    requires Readable(m, c) && Sorts(m) && forall k :: k in keys ==> k in c
    ensures var saves := Collected(m, c, keys).saves; forall k :: k in m.sorted(saves.Keys) ==> k in saves
  {
    assert Lists(m.sorted(Collected(m, c, keys).saves.Keys), Collected(m, c, keys).saves.Keys);
  }

  /**
   * When no two entries get the same new key, no conflict is handled, there is no error, and exactly
   * the old entries are in the table, each under its new key with its value.
   */
  lemma InjectiveKeepsAll(m: Migration, c: Contents, keys: seq<Key>)
    requires Readable(m, c) && Sorts(m) && Lists(keys, c.Keys) && Injective(m, c)
    ensures var saves := Collected(m, c, keys).saves; forall k :: k in m.sorted(saves.Keys) ==> k in saves
    ensures Migrated(m, c, keys).1 && AllMoved(m, c, Migrated(m, c, keys).0)
  {
    SavesPrecondition(m, c, keys);
    var plan := Collected(m, c, keys);
    CollectedPlansEach(m, c, keys);
    var order, rest := m.sorted(plan.saves.Keys), c - plan.deletions;
    assert Lists(order, plan.saves.Keys);
    forall k | k in order
      ensures |plan.saves[k]| == 1 && (plan.saves[k][0].0 ==> k !in rest)
    {
      var l :| l in keys && Touched(m, c, l) && NewKey(m, c, l) == k;
      if Moves(m, c, l) && k in c {
        assert Moves(m, c, k);
      }
    }
    SavesSucceed(m, rest, plan.saves, order);
    DoneIsMoved(m, c, keys, plan, order, SavedAll(m.handleConflict, rest, plan.saves, order).0);
  }

  lemma DoneIsMoved(m: Migration, c: Contents, keys: seq<Key>, plan: Plan, order: seq<Key>, after: Contents)
    requires Readable(m, c) && Lists(keys, c.Keys) && Injective(m, c) && PlansEach(m, c, keys, plan)
    requires Lists(order, plan.saves.Keys) && forall k :: k in order ==> plan.saves[k] != []
    requires SavesDone(c - plan.deletions, plan.saves, order, after)
    ensures AllMoved(m, c, after)
  {
    forall k | k in c
      ensures NewKey(m, c, k) in after && after[NewKey(m, c, k)] == NewText(m, c, k)
    {
      if !Touched(m, c, k) {
        assert k !in plan.saves;
      }
    }
    forall k | k in after
      ensures exists l :: l in c && NewKey(m, c, l) == k
    {
      if k in order {
        var l :| l in keys && Touched(m, c, l) && NewKey(m, c, l) == k;
      } else {
        assert k in c && !Moves(m, c, k);
        assert NewKey(m, c, k) == k;
      }
    }
  }

  /** A queue keeps its keys, so that migrating it only replaces texts. */
  lemma QueueMigrationKeepsKeys(m: Migration, c: Contents, keys: seq<Key>)
    requires Readable(m, c) && Sorts(m) && Lists(keys, c.Keys) && forall k, v :: m.genKey(k, v) == k
    ensures var saves := Collected(m, c, keys).saves; forall k :: k in m.sorted(saves.Keys) ==> k in saves
    ensures Migrated(m, c, keys) == (map k | k in c :: NewText(m, c, k), true)
  {
    InjectiveKeepsAll(m, c, keys);
    var after := Migrated(m, c, keys).0;
    assert forall k :: k in c ==> NewKey(m, c, k) == k;
    assert after == map k | k in c :: NewText(m, c, k);
  }

  lemma {:induction false} DeletionsAreMoves(m: Migration, c: Contents, keys: seq<Key>)
    requires Readable(m, c) && forall k :: k in keys ==> k in c
    ensures forall k :: k in Collected(m, c, keys).deletions <==> k in keys && Moves(m, c, k)
  {
    if keys != [] {
      DeletionsAreMoves(m, c, keys[..|keys| - 1]);
      assert forall k :: k in keys <==> k in keys[..|keys| - 1] || k == keys[|keys| - 1];
    }
  }

  /** Between the deletions and the saves every entry is in the table exactly when none moves. */
  lemma MidwayKeepsAllExactly(m: Migration, c: Contents, keys: seq<Key>)
    requires Readable(m, c) && Lists(keys, c.Keys)
    ensures c - Collected(m, c, keys).deletions == c <==> forall k :: k in c ==> !Moves(m, c, k)
  {
    DeletionsAreMoves(m, c, keys);
    var plan := Collected(m, c, keys);
    if c - plan.deletions == c {
      forall k | k in c
        ensures !Moves(m, c, k)
      {
        assert k in (c - plan.deletions);
      }
    }
  }

  /** Every entry of the table moves to the key "x". */
  function AllToX(handle: (Key, string, string) -> Option<string>, sorted: set<Key> -> seq<Key>): Migration {
    Migration((s: string) => Some((s, false)), (k: Key, v: string) => "x", handle, sorted)
  }

  const COLLIDING: Contents := map["a" := "1", "b" := "2", "x" := "3"]

  lemma CollidingPlan(m: Migration, handle: (Key, string, string) -> Option<string>, sorted: set<Key> -> seq<Key>)
    requires m == AllToX(handle, sorted)
    ensures Collected(m, COLLIDING, ["a", "b", "x"]) == Plan(map["x" := [(true, "1"), (true, "2")]], {"a", "b"}, 2)
  {
    var c := COLLIDING;
    var p0, p1 := Plan(map[], {}, 0), Plan(map["x" := [(true, "1")]], {"a"}, 1);
    var p2 := Plan(map["x" := [(true, "1"), (true, "2")]], {"a", "b"}, 2);
    assert Planned(p0, m, c, "a") == p1 by {
      assert [] + [(true, "1")] == [(true, "1")] && {} + {"a"} == {"a"};
    }
    assert Planned(p1, m, c, "b") == p2 by {
      assert [(true, "1")] + [(true, "2")] == [(true, "1"), (true, "2")] && {"a"} + {"b"} == {"a", "b"};
    }
    assert Planned(p2, m, c, "x") == p2;
    assert ["a", "b", "x"][..2] == ["a", "b"] && ["a", "b"][..1] == ["a"] && ["a"][..0] == [];
    assert Collected(m, c, ["a"]) == p1;
    assert Collected(m, c, ["a", "b"]) == p2;
  }

  /**
   * Without injectivity an entry can be lost without being handled as a conflict: two entries that
   * move to the key of a third one are merged, and the result overwrites the third one.
   */
  lemma UnhandledLoss(m: Migration, handle: (Key, string, string) -> Option<string>, sorted: set<Key> -> seq<Key>)
    requires m == AllToX(handle, sorted) && handle("x", "2", "1") == Some("12") && sorted({"x"}) == ["x"]
    ensures Collected(m, COLLIDING, ["a", "b", "x"]).saves.Keys == {"x"}
    ensures Migrated(m, COLLIDING, ["a", "b", "x"]) == (map["x" := "12"], true)
  {
    CollidingPlan(m, handle, sorted);
    var plan := Collected(m, COLLIDING, ["a", "b", "x"]);
    var values, rest := plan.saves["x"], COLLIDING - plan.deletions;
    assert plan.saves.Keys == {"x"};
    assert values[..1] == [(true, "1")] && [(true, "1")][..0] == [];
    assert Merge(m.handleConflict, "x", "2", [(true, "1")]) == Some("12");
    assert Saved(m.handleConflict, rest, "x", values) == (rest["x" := "12"], true);
    assert ["x"][..0] == [];
    assert SavedAll(m.handleConflict, rest, plan.saves, ["x"]) == (rest["x" := "12"], true);
    assert rest["x" := "12"] == map["x" := "12"];
  }

  // ---- The migration

  datatype MigrateError = Unreadable | ConflictRefused

  method Collect(table: Table, m: Migration, keys: seq<Key>) returns (r: Result<Plan, MigrateError>)
    requires table.Valid() && Lists(keys, table.Contents().Keys)
    ensures r.Success? <==> Readable(m, table.Contents())
    ensures r.Success? ==> r.value == Collected(m, table.Contents(), keys)
  {
    ghost var c := table.Contents();
    var saves: map<Key, Values>, deletions: set<Key>, count, i := map[], {}, 0, 0;
    while i < |keys|
      invariant i <= |keys| && forall k :: k in keys[..i] ==> m.fromStr(c[k]).Some?
      invariant Readable(m, c) ==> Plan(saves, deletions, count) == Collected(m, c, keys[..i])
    {
      var oldKey := keys[i];
      assert keys[..i + 1][..i] == keys[..i];
      var text := table.Get(oldKey);
      if text.Some? {
        var parsed := m.fromStr(text.value);
        if parsed.None? {
          return Failure(Unreadable);
        }
        var (value, needsSaving) := parsed.value;
        saves, deletions, count := Note(m, c, oldKey, value, needsSaving, saves, deletions, count);
      }
      i := i + 1;
    }
    assert keys[..i] == keys;
    r := Success(Plan(saves, deletions, count));
  }

  /** Notes what is to be done with one entry, which is read from `c`. */
  method Note(m: Migration, ghost c: Contents, oldKey: Key, value: string, needsSaving: bool,
              saves0: map<Key, Values>, deletions0: set<Key>, count0: nat)
    returns (saves: map<Key, Values>, deletions: set<Key>, count: nat)
    requires oldKey in c && m.fromStr(c[oldKey]) == Some((value, needsSaving))
    ensures Plan(saves, deletions, count) == Planned(Plan(saves0, deletions0, count0), m, c, oldKey)
  {
    saves, deletions, count := saves0, deletions0, count0;
    var newKey := m.genKey(oldKey, value);
    var keyChanged := newKey != oldKey;
    if needsSaving || keyChanged {
      if keyChanged {
        deletions := deletions + {oldKey};
      }
      saves := saves[newKey := (if newKey in saves then saves[newKey] else []) + [(keyChanged, value)]];
      count := count + 1;
    }
  }

  method DeleteAll(table: Table, keys: set<Key>)
    requires table.Valid()
    modifies table
    ensures table.Valid() && table.Contents() == old(table.Contents()) - keys
  {
    var left := keys;
    while left != {}
      invariant left <= keys && table.Valid() && table.Contents() == old(table.Contents()) - (keys - left)
      decreases left
    {
      var k :| k in left;
      var _ := table.Delete(k);
      left := left - {k};
    }
  }

  method MergeValues(m: Migration, k: Key, values: Values) returns (merged: Option<string>, keyChanged: bool)
    requires values != []
    ensures merged == Merge(m.handleConflict, k, values[|values| - 1].1, values[..|values| - 1])
    ensures merged.Some? ==> keyChanged == (values[|values| - 1].0 && |values| == 1)
  {
    var others, last := values[..|values| - 1], values[|values| - 1];
    merged, keyChanged := Some(last.1), last.0;
    var i := 0;
    while i < |others|
      invariant i <= |others| && merged.Some? && merged == Merge(m.handleConflict, k, last.1, others[..i])
      invariant keyChanged == (last.0 && i == 0)
    {
      assert others[..i + 1][..i] == others[..i];
      merged := m.handleConflict(k, merged.value, others[i].1);
      if merged.None? {
        MergeFails(m.handleConflict, k, last.1, others, i + 1);
        return;
      }
      keyChanged := false;
      i := i + 1;
    }
    assert others[..i] == others;
  }

  lemma {:induction false} MergeFails(handle: Handler<string>, k: Key, value: string, others: Values, i: nat)
    requires i <= |others| && Merge(handle, k, value, others[..i]).None?
    ensures Merge(handle, k, value, others).None?
  {
    if i == |others| {
      assert others[..i] == others;
    } else {
      assert others[..|others| - 1][..i] == others[..i];
      MergeFails(handle, k, value, others[..|others| - 1], i);
    }
  }

  method Save(table: Table, m: Migration, k: Key, values: Values) returns (ok: bool)
    requires table.Valid() && values != []
    modifies table
    ensures table.Valid() && (table.Contents(), ok) == Saved(m.handleConflict, old(table.Contents()), k, values)
  {
    var merged, keyChanged := MergeValues(m, k, values);
    if merged.None? {
      return false;
    }
    var r := table.Insert(k, merged.value, keyChanged);
    if r.Failure? {
      var oldValue := table.Get(k);
      var resolved := m.handleConflict(k, oldValue.value, merged.value);
      if resolved.None? {
        return false;
      }
      var _ := table.Insert(k, resolved.value, false);
    }
    ok := true;
  }

  method SaveAll(table: Table, m: Migration, saves: map<Key, Values>, order: seq<Key>) returns (ok: bool)
    requires table.Valid() && forall k :: k in order ==> k in saves && saves[k] != []
    modifies table
    ensures table.Valid() && (table.Contents(), ok) == SavedAll(m.handleConflict, old(table.Contents()), saves, order)
  {
    var i := 0;
    ghost var rest := table.Contents();
    while i < |order|
      invariant i <= |order| && table.Valid()
      invariant SavedAll(m.handleConflict, rest, saves, order[..i]) == (table.Contents(), true)
    {
      assert order[..i + 1][..i] == order[..i];
      ok := Save(table, m, order[i], saves[order[i]]);
      if !ok {
        SavedAllStops(m.handleConflict, rest, saves, order, i + 1);
        return;
      }
      i := i + 1;
    }
    assert order[..i] == order;
    ok := true;
  }

  /**
   * `keys` is the order in which the directory lists its keys. A value that cannot be read stops the
   * migration before anything is changed.
   */
  method MigrateKeyVal(table: Table, m: Migration, keys: seq<Key>) returns (r: Result<nat, MigrateError>)
    requires table.Valid() && Lists(keys, table.Contents().Keys) && Sorts(m)
    modifies table
    ensures table.Valid()
    ensures !Readable(m, old(table.Contents())) ==>
      r == Failure(Unreadable) && table.Contents() == old(table.Contents())
    ensures Readable(m, old(table.Contents())) ==>
      && (var saves := Collected(m, old(table.Contents()), keys).saves;
          forall k :: k in m.sorted(saves.Keys) ==> k in saves)
      && (table.Contents(), r.Success?) == Migrated(m, old(table.Contents()), keys)
      && (r.Success? ==> r.value == Collected(m, old(table.Contents()), keys).count)
    ensures Readable(m, old(table.Contents())) && Injective(m, old(table.Contents())) ==>
      r.Success? && AllMoved(m, old(table.Contents()), table.Contents())
  {
    ghost var c := table.Contents();
    var plan := Collect(table, m, keys);
    if plan.Failure? {
      return Failure(Unreadable);
    }
    SavesPrecondition(m, c, keys);
    if Injective(m, c) {
      InjectiveKeepsAll(m, c, keys);
    }
    DeleteAll(table, plan.value.deletions);
    var ok := SaveAll(table, m, plan.value.saves, m.sorted(plan.value.saves.Keys));
    r := if ok then Success(plan.value.count) else Failure(ConflictRefused);
  }

  lemma {:induction false} SavedAllStops(
      handle: Handler<string>, c: Contents, saves: map<Key, Values>, keys: seq<Key>, i: nat)
    requires forall k :: k in keys ==> k in saves && saves[k] != []
    requires i <= |keys| && !SavedAll(handle, c, saves, keys[..i]).1
    ensures SavedAll(handle, c, saves, keys) == SavedAll(handle, c, saves, keys[..i])
  {
    if i == |keys| {
      assert keys[..i] == keys;
    } else {
      assert keys[..|keys| - 1][..i] == keys[..i];
      SavedAllStops(handle, c, saves, keys[..|keys| - 1], i);
    }
  }
}
