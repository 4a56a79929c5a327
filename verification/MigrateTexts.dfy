module MigrateTexts {
  // Which text a migration leaves under each key, in what order conflicts are handed out, and what it counts.

  import opened Wrappers
  import opened FileStore
  import opened Migrate
  import opened MigrateOrigins

  /**
   The text of the last one of some entries, combined with those of the others from the first on: the
   handler gets first what there is so far, and then the other text.
   */
  function Combined(m: Migration, c: Contents, k: Key, last: Key, others: seq<Key>): Option<string>
    requires Readable(m, c) && last in c && forall l :: l in others ==> l in c
  {
    if others == [] then Some(m.fromStr(c[last]).value.0)
    else
      var n := |others| - 1;
      var soFar := Combined(m, c, k, last, others[..n]);
      if soFar.None? then None else m.handleConflict(k, soFar.value, m.fromStr(c[others[n]]).value.0)
  }

  lemma {:induction false} CombinedIsMerge(m: Migration, c: Contents, k: Key, last: Key, others: seq<Key>)
    requires Readable(m, c) && last in c && forall l :: l in others ==> l in c
    ensures Combined(m, c, k, last, others)
         == Merge(m.handleConflict, k, NewValue(m, c, last), EraseValues(ValuesOf(m, c, others)))
  {
    if others != [] {
      var n := |others| - 1;
      CombinedIsMerge(m, c, k, last, others[..n]);
      var values := EraseValues(ValuesOf(m, c, others));
      assert values[..n] == EraseValues(ValuesOf(m, c, others[..n]));
    }
  }

  /** What saving some values puts under a key of a table. */
  function ResultAt(handle: Handler<string>, c: Contents, k: Key, values: Values): Option<string>
    requires values != []
  {
    var merged := Merge(handle, k, values[|values| - 1].1, values[..|values| - 1]);
    if merged.None? then None
    else if |values| == 1 && values[0].0 && k in c then handle(k, c[k], merged.value)
    else merged
  }

  lemma SavedAt(handle: Handler<string>, c: Contents, k: Key, values: Values)
    requires values != [] && Saved(handle, c, k, values).1
    ensures
      var after := Saved(handle, c, k, values).0;
      && after.Keys == c.Keys + {k} && (forall l :: l in c && l != k ==> after[l] == c[l])
      && ResultAt(handle, c, k, values) == Some(after[k])
  {
  }

  ghost predicate SameAt(a: Contents, b: Contents, k: Key) {
    (k in a <==> k in b) && (k in a ==> a[k] == b[k])
  }

  lemma {:induction false} SavedAllAt(
      handle: Handler<string>, c: Contents, saves: map<Key, Values>, keys: seq<Key>, k: Key)
    requires forall l :: l in keys ==> l in saves && saves[l] != []
    requires Distinct(keys) && SavedAll(handle, c, saves, keys).1
    ensures
      var after := SavedAll(handle, c, saves, keys).0;
      if k in keys then k in after && ResultAt(handle, c, k, saves[k]) == Some(after[k]) else SameAt(after, c, k)
  {
    if keys != [] {
      var front, last := keys[..|keys| - 1], keys[|keys| - 1];
      SavedAllAt(handle, c, saves, front, k);
      SavedAllAt(handle, c, saves, front, last);
      assert last !in front;
      assert k in keys <==> k in front || k == last;
      SavedAt(handle, SavedAll(handle, c, saves, front).0, last, saves[last]);
    }
  }

  /** The values that are planned for a key are those of its sources. */
  lemma PlannedForKey(m: Migration, c: Contents, keys: seq<Key>, k: Key)
    requires Readable(m, c) && forall l :: l in keys ==> l in c
    ensures
      var saves, sources := Collected(m, c, keys).saves, Sources(m, c, keys, k);
      && (k in saves <==> sources != [])
      && (k in saves ==> saves[k] == EraseValues(ValuesOf(m, c, sources)))
  {
    CollectedPlansSources(m, c, keys);
    var saves := Collected(m, c, keys).saves;
    assert EraseValues(ValuesOf(m, c, Sources(m, c, keys, k))) == if k in saves then saves[k] else [];
  }

  /** A single other source meets the entry at the key exactly if that entry stays untouched. */
  lemma MetExactly(m: Migration, c: Contents, keys: seq<Key>, k: Key)
    requires Readable(m, c) && Lists(keys, c.Keys) && |Sources(m, c, keys, k)| == 1
    ensures
      Moves(m, c, Sources(m, c, keys, k)[0]) && k in c && !Moves(m, c, k) <==> k in c && !Touched(m, c, k)
  {
    var s := Sources(m, c, keys, k);
    SourcesMembers(m, c, keys, k);
    assert s[0] in s;
    if k in c && Touched(m, c, k) && !Moves(m, c, k) {
      assert k in s;
    }
    if k in c && !Touched(m, c, k) {
      assert s[0] != k;
    }
  }

  /** A single value meets the entry that is there, unless that needs a change itself. */
  lemma ResultOfOne(m: Migration, c: Contents, keys: seq<Key>, k: Key)
    requires Readable(m, c) && Lists(keys, c.Keys) && |Sources(m, c, keys, k)| == 1
    ensures
      var s, rest := Sources(m, c, keys, k), c - Collected(m, c, keys).deletions;
      ResultAt(m.handleConflict, rest, k, [(Moves(m, c, s[0]), NewValue(m, c, s[0]))])
      == if k in c && !Touched(m, c, k) then m.handleConflict(k, c[k], NewValue(m, c, s[0]))
         else Some(NewValue(m, c, s[0]))
  {
    DeletionsAreMoves(m, c, keys);
    MetExactly(m, c, keys, k);
  }

  /** Several are combined. */
  lemma ResultOfSeveral(m: Migration, c: Contents, rest: Contents, s: seq<Key>, k: Key)
    requires Readable(m, c) && |s| > 1 && forall l :: l in s ==> l in c
    ensures
      var n := |s| - 1;
      ResultAt(m.handleConflict, rest, k, EraseValues(ValuesOf(m, c, s))) == Combined(m, c, k, s[n], s[..n])
  {
    var n, values := |s| - 1, EraseValues(ValuesOf(m, c, s));
    CombinedIsMerge(m, c, k, s[n], s[..n]);
    assert values[..n] == EraseValues(ValuesOf(m, c, s[..n]));
  }

  lemma ResultOfSources(m: Migration, c: Contents, keys: seq<Key>, k: Key)
    requires Readable(m, c) && Lists(keys, c.Keys) && Sources(m, c, keys, k) != []
    ensures
      var s, rest := Sources(m, c, keys, k), c - Collected(m, c, keys).deletions;
      var n := |s| - 1;
      ResultAt(m.handleConflict, rest, k, EraseValues(ValuesOf(m, c, s)))
      == if n == 0 && k in c && !Touched(m, c, k)
         then m.handleConflict(k, c[k], m.fromStr(c[s[0]]).value.0)
         else Combined(m, c, k, s[n], s[..n])
  {
    var s, rest := Sources(m, c, keys, k), c - Collected(m, c, keys).deletions;
    if |s| == 1 {
      ResultOfOne(m, c, keys, k);
      assert EraseValues(ValuesOf(m, c, s)) == [(Moves(m, c, s[0]), NewValue(m, c, s[0]))];
    } else {
      ResultOfSeveral(m, c, rest, s, k);
    }
  }

  /**
   After a migration without refused conflicts, for every key and every table: if no entry that needs a
   change gets the key, the key has what it had, unless its entry moved away. If one does, and an entry
   that needs no change is there, the handler gets the text that is there and then the new one. Else the
   texts of all that get the key are combined.
   */
  lemma TextAtKey(m: Migration, c: Contents, keys: seq<Key>, k: Key)
    requires Readable(m, c) && Sorts(m) && Lists(keys, c.Keys)
    ensures var saves := Collected(m, c, keys).saves; forall l :: l in m.sorted(saves.Keys) ==> l in saves
    ensures Migrated(m, c, keys).1 ==>
      var after, s := Migrated(m, c, keys).0, Sources(m, c, keys, k);
      var n := |s| - 1;
      if s == [] then
        (k in after <==> k in c && m.genKey(k, NewValue(m, c, k)) == k) && (k in after ==> after[k] == c[k])
      else
        && k in after
        && Some(after[k]) == if n == 0 && k in c && !Touched(m, c, k)
                             then m.handleConflict(k, c[k], m.fromStr(c[s[0]]).value.0)
                             else Combined(m, c, k, s[n], s[..n])
  {
    SavesPrecondition(m, c, keys);
    var plan := Collected(m, c, keys);
    var order, rest := m.sorted(plan.saves.Keys), c - plan.deletions;
    assert Lists(order, plan.saves.Keys);
    if Migrated(m, c, keys).1 {
      PlannedForKey(m, c, keys, k);
      SavedAllAt(m.handleConflict, rest, plan.saves, order, k);
      DeletionsAreMoves(m, c, keys);
      if Sources(m, c, keys, k) != [] {
        ResultOfSources(m, c, keys, k);
      }
    }
  }

  /** The entries that need a change. */
  function TouchedAmong(m: Migration, c: Contents, keys: seq<Key>): (r: set<Key>)
    requires Readable(m, c) && forall k :: k in keys ==> k in c
    ensures forall k :: k in r <==> k in keys && (m.fromStr(c[k]).value.1 || m.genKey(k, m.fromStr(c[k]).value.0) != k)
  {
    set k | k in keys && Touched(m, c, k)
  }

  /** The number that is answered is that of the entries in an old format or with a new key. */
  lemma {:induction false} CountIsOfTouched(m: Migration, c: Contents, keys: seq<Key>)
    requires Readable(m, c) && (forall k :: k in keys ==> k in c) && Distinct(keys)
    ensures Collected(m, c, keys).count == |TouchedAmong(m, c, keys)|
  {
    if keys != [] {
      var front, last := keys[..|keys| - 1], keys[|keys| - 1];
      CountIsOfTouched(m, c, front);
      assert last !in front;
      assert forall k :: k in keys <==> k in front || k == last;
      var before, all := TouchedAmong(m, c, front), TouchedAmong(m, c, keys);
      if Touched(m, c, last) {
        assert all == before + {last};
      } else {
        assert all == before;
      }
    }
  }
}
