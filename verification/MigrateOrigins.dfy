module MigrateOrigins {
  // From which old entries the values of a migrated table come, and so exactly which entries a migration loses.

  import opened Wrappers
  import opened FileStore
  import opened Migrate

  /** A value with the keys of the old entries that it was made from. */
  type Traced = (string, set<Key>)
  type TracedValues = seq<(bool, Traced)>

  /** What the handler of conflicts makes of two values comes from the entries of both. */
  function TracedHandler(handle: Handler<string>): Handler<Traced> {
    (k: Key, a: Traced, b: Traced) =>
      var r := handle(k, a.0, b.0);
      if r.None? then None else Some((r.value, a.1 + b.1))
  }

  function Trace(c: Contents): map<Key, Traced> {
    map k | k in c :: (c[k], {k})
  }

  /** Without the origins. */
  function Erase(t: map<Key, Traced>): Contents {
    map k | k in t :: t[k].0
  }

  function EraseValues(values: TracedValues): (r: Values)
    ensures |r| == |values| && forall i :: 0 <= i < |r| ==> r[i] == (values[i].0, values[i].1.0)
  {
    seq(|values|, i requires 0 <= i < |values| => (values[i].0, values[i].1.0))
  }

  // ---- The same migration

  lemma {:induction false} MergeErases(handle: Handler<string>, k: Key, value: Traced, others: TracedValues)
    ensures
      var traced := Merge(TracedHandler(handle), k, value, others);
      var plain := Merge(handle, k, value.0, EraseValues(others));
      (traced.Some? <==> plain.Some?) && (traced.Some? ==> traced.value.0 == plain.value)
  {
    if others != [] {
      var n := |others| - 1;
      assert EraseValues(others)[..n] == EraseValues(others[..n]);
      MergeErases(handle, k, value, others[..n]);
    }
  }

  lemma SavedErases(handle: Handler<string>, t: map<Key, Traced>, k: Key, values: TracedValues)
    requires values != []
    ensures
      var (after, ok) := Saved(TracedHandler(handle), t, k, values);
      Saved(handle, Erase(t), k, EraseValues(values)) == (Erase(after), ok)
  {
    var others, last := values[..|values| - 1], values[|values| - 1];
    MergeErases(handle, k, last.1, others);
    assert EraseValues(values)[..|values| - 1] == EraseValues(others);
    var (after, ok) := Saved(TracedHandler(handle), t, k, values);
    if ok {
      EraseUpdate(t, k, after[k]);
    }
  }

  lemma EraseUpdate(t: map<Key, Traced>, k: Key, v: Traced)
    ensures Erase(t[k := v]) == Erase(t)[k := v.0]
  {
  }

  ghost predicate Erases(traced: map<Key, TracedValues>, saves: map<Key, Values>) {
    traced.Keys == saves.Keys && forall k :: k in saves ==> EraseValues(traced[k]) == saves[k]
  }

  lemma {:induction false} SavedAllErases(
      handle: Handler<string>, t: map<Key, Traced>, traced: map<Key, TracedValues>, saves: map<Key, Values>,
      keys: seq<Key>)
    requires Erases(traced, saves) && forall k :: k in keys ==> k in saves && saves[k] != []
    ensures forall k :: k in keys ==> k in traced && traced[k] != []
    ensures
      var (after, ok) := SavedAll(TracedHandler(handle), t, traced, keys);
      SavedAll(handle, Erase(t), saves, keys) == (Erase(after), ok)
  {
    forall k | k in keys
      ensures k in traced && traced[k] != []
    {
      assert EraseValues(traced[k]) == saves[k];
    }
    if keys != [] {
      var front, last := keys[..|keys| - 1], keys[|keys| - 1];
      SavedAllErases(handle, t, traced, saves, front);
      var (before, ok) := SavedAll(TracedHandler(handle), t, traced, front);
      if ok {
        SavedErases(handle, before, last, traced[last]);
      }
    }
  }

  // ---- The origins of a saved value

  function Origins(values: TracedValues): (r: set<Key>)
    ensures forall i :: 0 <= i < |values| ==> values[i].1.1 <= r
    ensures forall k :: k in r ==> exists i :: 0 <= i < |values| && k in values[i].1.1
  {
    if values == [] then {} else Origins(values[..|values| - 1]) + values[|values| - 1].1.1
  }

  lemma {:induction false} MergeOrigins(handle: Handler<string>, k: Key, value: Traced, others: TracedValues)
    ensures Merge(TracedHandler(handle), k, value, others).Some? ==>
      Merge(TracedHandler(handle), k, value, others).value.1 == value.1 + Origins(others)
  {
    if others != [] {
      MergeOrigins(handle, k, value, others[..|others| - 1]);
    }
  }

  /** A single value that has moved meets the entry that is there as a conflict. */
  predicate MeetsEntry(t: map<Key, Traced>, k: Key, values: TracedValues) {
    |values| == 1 && values[0].0 && k in t
  }

  lemma SavedOrigins(handle: Handler<string>, t: map<Key, Traced>, k: Key, values: TracedValues)
    requires values != [] && Saved(TracedHandler(handle), t, k, values).1
    ensures
      var after := Saved(TracedHandler(handle), t, k, values).0;
      && after.Keys == t.Keys + {k} && (forall l :: l in t && l != k ==> after[l] == t[l])
      && after[k].1 == Origins(values) + if MeetsEntry(t, k, values) then t[k].1 else {}
  {
    MergeOrigins(handle, k, values[|values| - 1].1, values[..|values| - 1]);
  }

  /** The table after saving some keys: each saved value comes from the values for its key and a met entry. */
  ghost predicate OriginsDone(
      t: map<Key, Traced>, traced: map<Key, TracedValues>, done: seq<Key>, after: map<Key, Traced>)
    requires forall k :: k in done ==> k in traced
  {
    && (forall k :: k in after <==> k in t || k in done)
    && (forall k :: k in t && k !in done ==> k in after && after[k] == t[k])
    && (forall k :: k in done ==>
          k in after && after[k].1 == Origins(traced[k]) + if MeetsEntry(t, k, traced[k]) then t[k].1 else {})
  }

  lemma {:induction false} SavedAllOrigins(
      handle: Handler<string>, t: map<Key, Traced>, traced: map<Key, TracedValues>, keys: seq<Key>)
    requires forall k :: k in keys ==> k in traced && traced[k] != []
    requires forall i, j :: 0 <= i < j < |keys| ==> keys[i] != keys[j]
    requires SavedAll(TracedHandler(handle), t, traced, keys).1
    ensures OriginsDone(t, traced, keys, SavedAll(TracedHandler(handle), t, traced, keys).0)
  {
    if keys != [] {
      var front, last := keys[..|keys| - 1], keys[|keys| - 1];
      SavedAllOrigins(handle, t, traced, front);
      var before := SavedAll(TracedHandler(handle), t, traced, front).0;
      assert last !in front;
      assert MeetsEntry(before, last, traced[last]) <==> MeetsEntry(t, last, traced[last]);
      SavedOrigins(handle, before, last, traced[last]);
      DoneNext(t, traced, front, last, before, Saved(TracedHandler(handle), before, last, traced[last]).0);
      assert front + [last] == keys;
    }
  }

  lemma DoneNext(t: map<Key, Traced>, traced: map<Key, TracedValues>, done: seq<Key>, k: Key,
                 before: map<Key, Traced>, after: map<Key, Traced>)
    requires (forall l :: l in done ==> l in traced) && k in traced && k !in done
    requires OriginsDone(t, traced, done, before)
    requires after.Keys == before.Keys + {k} && forall l :: l in before && l != k ==> after[l] == before[l]
    requires after[k].1 == Origins(traced[k]) + if MeetsEntry(t, k, traced[k]) then t[k].1 else {}
    ensures OriginsDone(t, traced, done + [k], after)
  {
  }

  // ---- Which entries are saved under a key

  /** The touched entries that get the key, in the order in which they are listed. */
  function Sources(m: Migration, c: Contents, keys: seq<Key>, new_: Key): (r: seq<Key>)
    requires Readable(m, c) && forall k :: k in keys ==> k in c
    ensures forall k :: k in r ==> k in c
  {
    if keys == [] then []
    else
      var k := keys[|keys| - 1];
      Sources(m, c, keys[..|keys| - 1], new_) + if Touched(m, c, k) && NewKey(m, c, k) == new_ then [k] else []
  }

  lemma {:induction false} SourcesMembers(m: Migration, c: Contents, keys: seq<Key>, new_: Key)
    requires Readable(m, c) && forall k :: k in keys ==> k in c
    ensures forall l :: l in Sources(m, c, keys, new_) <==> l in keys && Touched(m, c, l) && NewKey(m, c, l) == new_
  {
    if keys != [] {
      SourcesMembers(m, c, keys[..|keys| - 1], new_);
      assert forall k :: k in keys <==> k in keys[..|keys| - 1] || k == keys[|keys| - 1];
    }
  }

  lemma {:induction false} SourcesDistinct(m: Migration, c: Contents, keys: seq<Key>, new_: Key)
    requires Readable(m, c) && forall k :: k in keys ==> k in c
    requires Distinct(keys)
    ensures Distinct(Sources(m, c, keys, new_))
  {
    if keys != [] {
      var front, last := keys[..|keys| - 1], keys[|keys| - 1];
      SourcesDistinct(m, c, front, new_);
      SourcesMembers(m, c, front, new_);
      assert last !in front;
      assert forall i :: 0 <= i < |Sources(m, c, front, new_)| ==> Sources(m, c, front, new_)[i] in front;
    }
  }

  /** The values of some entries, each with its own key as origin. */
  function ValuesOf(m: Migration, c: Contents, sources: seq<Key>): (r: TracedValues)
    requires Readable(m, c) && forall k :: k in sources ==> k in c
    ensures |r| == |sources|
    ensures forall i :: 0 <= i < |r| ==>
      r[i] == (Moves(m, c, sources[i]), (NewValue(m, c, sources[i]), {sources[i]}))
  {
    seq(|sources|, i requires 0 <= i < |sources| =>
      (Moves(m, c, sources[i]), (NewValue(m, c, sources[i]), {sources[i]})))
  }

  /** The plan is to save the values of the sources of each key. */
  ghost predicate PlansSources(m: Migration, c: Contents, keys: seq<Key>, saves: map<Key, Values>)
    requires Readable(m, c) && forall k :: k in keys ==> k in c
  {
    forall k :: EraseValues(ValuesOf(m, c, Sources(m, c, keys, k))) == if k in saves then saves[k] else []
  }

  lemma {:induction false} CollectedPlansSources(m: Migration, c: Contents, keys: seq<Key>)
    requires Readable(m, c) && forall k :: k in keys ==> k in c
    ensures PlansSources(m, c, keys, Collected(m, c, keys).saves)
  {
    if keys != [] {
      var front, last := keys[..|keys| - 1], keys[|keys| - 1];
      CollectedPlansSources(m, c, front);
      var before, saves := Collected(m, c, front).saves, Collected(m, c, keys).saves;
      forall k
        ensures EraseValues(ValuesOf(m, c, Sources(m, c, keys, k))) == if k in saves then saves[k] else []
      {
        OneMoreSource(m, c, keys, k);
        assert EraseValues(ValuesOf(m, c, Sources(m, c, front, k))) == if k in before then before[k] else [];
      }
    }
  }

  lemma OneMoreSource(m: Migration, c: Contents, keys: seq<Key>, k: Key)
    requires Readable(m, c) && keys != [] && forall l :: l in keys ==> l in c
    ensures
      var front, last := keys[..|keys| - 1], keys[|keys| - 1];
      EraseValues(ValuesOf(m, c, Sources(m, c, keys, k)))
      == EraseValues(ValuesOf(m, c, Sources(m, c, front, k)))
         + if Touched(m, c, last) && NewKey(m, c, last) == k then [(Moves(m, c, last), NewValue(m, c, last))] else []
  {
  }

  // ---- The migration with origins

  function TracedSaves(m: Migration, c: Contents, keys: seq<Key>): map<Key, TracedValues>
    requires Readable(m, c) && forall k :: k in keys ==> k in c
  {
    map k | k in Collected(m, c, keys).saves :: ValuesOf(m, c, Sources(m, c, keys, k))
  }

  /** The migrated table, each value with the old entries that it was made from. */
  function MigratedTraced(m: Migration, c: Contents, keys: seq<Key>): (map<Key, Traced>, bool)
    requires Readable(m, c) && forall k :: k in keys ==> k in c
    requires
      var saves := TracedSaves(m, c, keys);
      forall k :: k in m.sorted(saves.Keys) ==> k in saves && saves[k] != []
  {
    var plan, saves := Collected(m, c, keys), TracedSaves(m, c, keys);
    SavedAll(TracedHandler(m.handleConflict), Trace(c - plan.deletions), saves, m.sorted(saves.Keys))
  }

  /** Tracing does not change the migration. */
  lemma TracingErases(m: Migration, c: Contents, keys: seq<Key>)
    requires Readable(m, c) && Sorts(m) && forall k :: k in keys ==> k in c
    ensures var saves := Collected(m, c, keys).saves; forall k :: k in m.sorted(saves.Keys) ==> k in saves
    ensures
      var saves := TracedSaves(m, c, keys);
      forall k :: k in m.sorted(saves.Keys) ==> k in saves && saves[k] != []
    ensures
      var (after, ok) := MigratedTraced(m, c, keys);
      Migrated(m, c, keys) == (Erase(after), ok)
  {
    SavesPrecondition(m, c, keys);
    CollectedPlansSources(m, c, keys);
    var plan, traced := Collected(m, c, keys), TracedSaves(m, c, keys);
    assert traced.Keys == plan.saves.Keys;
    forall k | k in plan.saves
      ensures EraseValues(traced[k]) == plan.saves[k]
    {
      assert EraseValues(ValuesOf(m, c, Sources(m, c, keys, k))) == plan.saves[k];
    }
    SavedAllErases(m.handleConflict, Trace(c - plan.deletions), traced, plan.saves, m.sorted(plan.saves.Keys));
    assert Erase(Trace(c - plan.deletions)) == c - plan.deletions;
  }

  /** Something in the table was made from the old entry. */
  ghost predicate Survives(after: map<Key, Traced>, k: Key) {
    exists l :: l in after && k in after[l].1
  }

  ghost predicate TwoOthersGet(m: Migration, c: Contents, k: Key)
    requires Readable(m, c)
  {
    exists l, l' :: l in c && l' in c && l != l' && l != k && l' != k && NewKey(m, c, l) == k && NewKey(m, c, l') == k
  }

  predicate Distinct(s: seq<Key>) {
    forall i, j :: 0 <= i < j < |s| ==> s[i] != s[j]
  }

  lemma TwoMembers(s: seq<Key>, l: Key, l': Key)
    requires l in s && l' in s && l != l'
    ensures |s| >= 2
  {
    var i :| 0 <= i < |s| && s[i] == l;
    var j :| 0 <= j < |s| && s[j] == l';
    assert i != j;
  }

  /** The sources of the key of an untouched entry are other entries that move there. */
  lemma ManySources(m: Migration, c: Contents, keys: seq<Key>, k: Key, s: seq<Key>)
    requires Readable(m, c) && Lists(keys, c.Keys) && k in c && !Touched(m, c, k)
    requires s == Sources(m, c, keys, k)
    ensures |s| >= 2 <==> TwoOthersGet(m, c, k)
    ensures forall i :: 0 <= i < |s| ==> s[i] in c && s[i] != k && Moves(m, c, s[i])
  {
    SourcesMembers(m, c, keys, k);
    SourcesDistinct(m, c, keys, k);
    assert forall i :: 0 <= i < |s| ==> s[i] in s;
    if |s| >= 2 {
      var l, l' := s[0], s[1];
      assert l != l' && l in s && l' in s;
    }
    if TwoOthersGet(m, c, k) {
      var l, l' :| l in c && l' in c && l != l' && l != k && l' != k && NewKey(m, c, l) == k && NewKey(m, c, l') == k;
      TwoMembers(s, l, l');
    }
  }

  lemma OriginsOfValues(m: Migration, c: Contents, sources: seq<Key>)
    requires Readable(m, c) && forall k :: k in sources ==> k in c
    ensures forall k :: k in Origins(ValuesOf(m, c, sources)) <==> k in sources
  {
    var values := ValuesOf(m, c, sources);
    forall k | k in sources
      ensures k in Origins(values)
    {
      var i :| 0 <= i < |sources| && sources[i] == k;
      assert values[i].1.1 == {k};
    }
  }

  // ---- What is left of an entry

  lemma Kept(t: map<Key, Traced>, traced: map<Key, TracedValues>, order: seq<Key>, after: map<Key, Traced>, k: Key)
    requires Lists(order, traced.Keys) && OriginsDone(t, traced, order, after)
    requires k in t && t[k].1 == {k} && (k in traced ==> MeetsEntry(t, k, traced[k]))
    ensures Survives(after, k)
  {
    assert k in after && k in after[k].1;
  }

  lemma Overwritten(
      t: map<Key, Traced>, traced: map<Key, TracedValues>, order: seq<Key>, after: map<Key, Traced>, k: Key)
    requires Lists(order, traced.Keys) && OriginsDone(t, traced, order, after)
    requires k in traced && !MeetsEntry(t, k, traced[k])
    requires (forall l :: l in t ==> t[l].1 == {l}) && forall l :: l in traced ==> k !in Origins(traced[l])
    ensures !Survives(after, k)
  {
  }

  lemma Moved(
      t: map<Key, Traced>, traced: map<Key, TracedValues>, order: seq<Key>, after: map<Key, Traced>, k: Key, new_: Key)
    requires Lists(order, traced.Keys) && OriginsDone(t, traced, order, after)
    requires new_ in traced && k in Origins(traced[new_])
    ensures Survives(after, k)
  {
    assert new_ in order && k in after[new_].1;
  }

  /** The plan has values for the keys that have sources. */
  lemma PlanOfSources(m: Migration, c: Contents, keys: seq<Key>, k: Key)
    requires Readable(m, c) && forall k :: k in keys ==> k in c
    ensures k in TracedSaves(m, c, keys) <==> Sources(m, c, keys, k) != []
    ensures k in TracedSaves(m, c, keys) ==> TracedSaves(m, c, keys)[k] == ValuesOf(m, c, Sources(m, c, keys, k))
  {
    CollectedPlansSources(m, c, keys);
    var saves := Collected(m, c, keys).saves;
    assert EraseValues(ValuesOf(m, c, Sources(m, c, keys, k))) == if k in saves then saves[k] else [];
  }

  lemma TouchedIsPlanned(m: Migration, c: Contents, keys: seq<Key>, k: Key)
    requires Readable(m, c) && Lists(keys, c.Keys) && k in c && Touched(m, c, k)
    ensures
      var traced, new_ := TracedSaves(m, c, keys), NewKey(m, c, k);
      new_ in traced && k in Origins(traced[new_])
  {
    var new_ := NewKey(m, c, k);
    SourcesMembers(m, c, keys, new_);
    PlanOfSources(m, c, keys, new_);
    OriginsOfValues(m, c, Sources(m, c, keys, new_));
    assert k in Sources(m, c, keys, new_);
  }

  lemma UntouchedIsNotPlanned(m: Migration, c: Contents, keys: seq<Key>, k: Key)
    requires Readable(m, c) && Lists(keys, c.Keys) && k in c && !Touched(m, c, k)
    ensures
      var traced := TracedSaves(m, c, keys);
      forall l :: l in traced ==> k !in Origins(traced[l])
  {
    forall l | l in TracedSaves(m, c, keys)
      ensures k !in Origins(TracedSaves(m, c, keys)[l])
    {
      PlanOfSources(m, c, keys, l);
      SourcesMembers(m, c, keys, l);
      OriginsOfValues(m, c, Sources(m, c, keys, l));
    }
  }

  lemma UntouchedMeets(m: Migration, c: Contents, keys: seq<Key>, k: Key, t: map<Key, Traced>)
    requires Readable(m, c) && Lists(keys, c.Keys) && k in c && !Touched(m, c, k) && k in t
    ensures
      var traced := TracedSaves(m, c, keys);
      if TwoOthersGet(m, c, k) then k in traced && !MeetsEntry(t, k, traced[k])
      else k in traced ==> MeetsEntry(t, k, traced[k])
  {
    PlanOfSources(m, c, keys, k);
    ManySources(m, c, keys, k, Sources(m, c, keys, k));
  }

  /** Moved, kept or met as a conflict, or overwritten. */
  lemma FateOf(
      m: Migration, c: Contents, keys: seq<Key>, k: Key, t: map<Key, Traced>, order: seq<Key>, after: map<Key, Traced>)
    requires Readable(m, c) && Lists(keys, c.Keys) && k in c && Lists(order, TracedSaves(m, c, keys).Keys)
    requires (forall l :: l in t ==> t[l].1 == {l}) && (Moves(m, c, k) || k in t)
    requires OriginsDone(t, TracedSaves(m, c, keys), order, after)
    ensures !Survives(after, k) <==> !Touched(m, c, k) && TwoOthersGet(m, c, k)
  {
    var traced := TracedSaves(m, c, keys);
    if Touched(m, c, k) {
      TouchedIsPlanned(m, c, keys, k);
      Moved(t, traced, order, after, k, NewKey(m, c, k));
    } else {
      UntouchedMeets(m, c, keys, k, t);
      if TwoOthersGet(m, c, k) {
        UntouchedIsNotPlanned(m, c, keys, k);
        Overwritten(t, traced, order, after, k);
      } else {
        Kept(t, traced, order, after, k);
      }
    }
  }

  /**
   A migration without refused conflicts loses an entry, so that nothing in the table was made from it, if
   and only if the entry needs no change itself and two or more others get its key. It is then overwritten
   without having been handled as a conflict.
   */
  lemma LostExactly(m: Migration, c: Contents, keys: seq<Key>, k: Key)
    requires Readable(m, c) && Sorts(m) && Lists(keys, c.Keys) && k in c
    ensures
      var saves := TracedSaves(m, c, keys);
      forall k :: k in m.sorted(saves.Keys) ==> k in saves && saves[k] != []
    ensures MigratedTraced(m, c, keys).1 ==>
      (!Survives(MigratedTraced(m, c, keys).0, k) <==> !Touched(m, c, k) && TwoOthersGet(m, c, k))
  {
    TracingErases(m, c, keys);
    DeletionsAreMoves(m, c, keys);
    var plan, traced := Collected(m, c, keys), TracedSaves(m, c, keys);
    var t, order := Trace(c - plan.deletions), m.sorted(traced.Keys);
    var (after, ok) := MigratedTraced(m, c, keys);
    if ok {
      assert Lists(order, traced.Keys);
      SavedAllOrigins(m.handleConflict, t, traced, order);
      FateOf(m, c, keys, k, t, order, after);
    }
  }
}
