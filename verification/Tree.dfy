/**
 Trees of values under paths of keys, made from pairs of path and value.

 Listing the pairs of a tree and making a tree from them again gives back the tree.
 */
module Tree {
  import opened Sequences
  import opened Wrappers

  type Path = seq<string>

  /** A node; its children are ordered by key, as in an ordered map. */
  datatype Tree<T> = Tree(value: Option<T>, children: Forest<T>)

  datatype Forest<T> = Nil | Cons(key: string, child: Tree<T>, rest: Forest<T>)

  // ---- The order of keys and of paths

  predicate Less(a: string, b: string) {
    b != [] && (a == [] || a[0] < b[0] || (a[0] == b[0] && Less(a[1..], b[1..])))
  }

  lemma {:induction false} LessTotal(a: string, b: string)
    ensures Less(a, b) || a == b || Less(b, a)
  {
    if a != [] && b != [] && a[0] == b[0] {
      LessTotal(a[1..], b[1..]);
      assert a == [a[0]] + a[1..] && b == [b[0]] + b[1..];
    }
  }

  lemma {:induction false} LessStrict(a: string, b: string)
    ensures !(Less(a, b) && Less(b, a)) && !Less(a, a)
  {
    if a != [] {
      if b != [] { LessStrict(a[1..], b[1..]); } else { LessStrict(a[1..], a[1..]); }
    }
  }

  lemma {:induction false} LessTransitive(a: string, b: string, c: string)
    requires Less(a, b) && Less(b, c)
    ensures Less(a, c)
  {
    if a != [] && a[0] == b[0] == c[0] {
      LessTransitive(a[1..], b[1..], c[1..]);
    }
  }

  /** A path comes before the longer paths that start with it; else the first different key decides. */
  predicate PathLess(p: Path, q: Path) {
    q != [] && (p == [] || Less(p[0], q[0]) || (p[0] == q[0] && PathLess(p[1..], q[1..])))
  }

  // ---- Operations

  function Get<T>(t: Tree<T>, path: Path): Option<T> {
    if path == [] then t.value else GetIn(t.children, path[0], path[1..])
  }

  function GetIn<T>(f: Forest<T>, key: string, path: Path): Option<T> {
    match f
    case Nil => None
    case Cons(k, child, rest) => if k == key then Get(child, path) else GetIn(rest, key, path)
  }

  function New<T>(): Tree<T> {
    Tree(None, Nil)
  }

  function Insert<T>(t: Tree<T>, path: Path, value: T): Tree<T>
    decreases |path|, 1
  {
    if path == [] then t.(value := Some(value))
    else t.(children := InsertIn(t.children, path[0], path[1..], value))
  }

  /** Into the child of the key, which is made if there is none. */
  function InsertIn<T>(f: Forest<T>, key: string, path: Path, value: T): Forest<T>
    decreases |path| + 1, 0, f
  {
    match f
    case Nil => Cons(key, Insert(New(), path, value), Nil)
    case Cons(k, child, rest) =>
      if k == key then Cons(k, Insert(child, path, value), rest)
      else if Less(key, k) then Cons(key, Insert(New(), path, value), f)
      else Cons(k, child, InsertIn(rest, key, path, value))
  }

  type KeyVals<T> = seq<(Path, T)>

  function InsertAll<T>(t: Tree<T>, data: KeyVals<T>): Tree<T> {
    if data == [] then t
    else
      var n := |data| - 1;
      Insert(InsertAll(t, data[..n]), data[n].0, data[n].1)
  }

  method FromKeyVal<T>(data: KeyVals<T>) returns (top: Tree<T>)
    ensures top == InsertAll(New(), data)
  {
    top := New();
    for i := 0 to |data|
      invariant top == InsertAll(New(), data[..i])
    {
      assert data[..i + 1][..i] == data[..i];
      top := Insert(top, data[i].0, data[i].1);
    }
    assert data[..|data|] == data;
  }

  /** All paths with their values, depth first, children in the order of their keys. */
  function PairsOf<T>(t: Tree<T>, at: Path): KeyVals<T> {
    (if t.value.Some? then [(at, t.value.value)] else []) + PairsIn(t.children, at)
  }

  function PairsIn<T>(f: Forest<T>, at: Path): KeyVals<T> {
    match f
    case Nil => []
    case Cons(k, child, rest) => PairsOf(child, at + [k]) + PairsIn(rest, at)
  }

  function Joined<T>(pairs: KeyVals<T>, separator: string): (r: seq<(string, T)>)
    ensures |r| == |pairs|
    ensures forall i :: 0 <= i < |r| ==> r[i] == (Join(pairs[i].0, separator), pairs[i].1)
  {
    seq(|pairs|, i requires 0 <= i < |pairs| => (Join(pairs[i].0, separator), pairs[i].1))
  }

  lemma JoinedAppend<T>(a: KeyVals<T>, b: KeyVals<T>, separator: string)
    ensures Joined(a + b, separator) == Joined(a, separator) + Joined(b, separator)
  {
  }

  /** The walk over a tree: one path that is extended and cut back, and the output. */
  class Walk<T> {
    const separator: string
    var path: Path
    var out: seq<(string, T)>

    constructor (separator: string)
      ensures this.separator == separator && path == [] && out == []
    {
      this.separator, path, out := separator, [], [];
    }

    method IntoJoinedKeyVal(t: Tree<T>)
      modifies this
      ensures path == old(path) && out == old(out) + Joined(PairsOf(t, old(path)), separator)
      decreases t
    {
      if t.value.Some? {
        out := out + [(Join(path, separator), t.value.value)];
      }
      var children := t.children;
      ghost var done: KeyVals<T> := if t.value.Some? then [(path, t.value.value)] else [];
      while children.Cons?
        invariant path == old(path) && (children == t.children || children < t.children)
        invariant out == old(out) + Joined(done, separator)
        invariant done + PairsIn(children, path) == PairsOf(t, path)
        decreases children
      {
        ghost var pairs := PairsOf(children.child, path + [children.key]);
        Associate(done, pairs, PairsIn(children.rest, path));
        JoinedAppend(done, pairs, separator);
        Associate(old(out), Joined(done, separator), Joined(pairs, separator));
        path := path + [children.key];
        IntoJoinedKeyVal(children.child);
        path := path[..|path| - 1];
        assert path == old(path);
        done := done + pairs;
        children := children.rest;
      }
      assert done + [] == done;
    }
  }

  // ---- Insertion changes one path

  /** The children of every node are in key order. */
  predicate Ordered<T>(t: Tree<T>) {
    OrderedIn(t.children)
  }

  predicate OrderedIn<T>(f: Forest<T>) {
    match f
    case Nil => true
    case Cons(k, child, rest) => Ordered(child) && OrderedIn(rest) && (rest.Cons? ==> Less(k, rest.key))
  }

  lemma {:induction false} NothingBelow<T>(f: Forest<T>, key: string, path: Path)
    requires OrderedIn(f) && (f.Cons? ==> Less(key, f.key))
    ensures GetIn(f, key, path) == None
  {
    match f
    case Nil =>
    case Cons(k, child, rest) =>
      LessStrict(key, k);
      if rest.Cons? { LessTransitive(key, k, rest.key); }
      NothingBelow(rest, key, path);
  }

  /** After an insertion the path has the value and every other path has what it had. */
  lemma {:induction false} GetAfterInsert<T>(t: Tree<T>, p: Path, v: T, q: Path)
    requires Ordered(t)
    ensures Ordered(Insert(t, p, v))
    ensures Get(Insert(t, p, v), q) == if p == q then Some(v) else Get(t, q)
    decreases |p|, 1
  {
    if p != [] {
      GetAfterInsertIn(t.children, p[0], p[1..], v, if q == [] then "" else q[0], if q == [] then [] else q[1..]);
      assert p == [p[0]] + p[1..];
      assert q != [] ==> q == [q[0]] + q[1..];
    }
  }

  lemma {:induction false} GetAfterInsertIn<T>(f: Forest<T>, key: string, p: Path, v: T, key': string, q: Path)
    requires OrderedIn(f)
    ensures
      var g := InsertIn(f, key, p, v);
      && g.Cons? && OrderedIn(g) && (g.key == key || (f.Cons? && g.key == f.key))
      && GetIn(g, key', q) == if key == key' && p == q then Some(v) else GetIn(f, key', q)
    decreases |p| + 1, 0, f
  {
    match f
    case Nil =>
      GetAfterInsert(New<T>(), p, v, q);
    case Cons(k, child, rest) =>
      if k == key {
        GetAfterInsert(child, p, v, q);
      } else if Less(key, k) {
        GetAfterInsert(New<T>(), p, v, q);
        NothingBelow(f, key, q);
      } else {
        GetAfterInsertIn(rest, key, p, v, key', q);
        LessTotal(key, k);
      }
  }

  /** The value that the list gives last to a path. */
  function LastVal<T>(data: KeyVals<T>, path: Path): Option<T> {
    if data == [] then None
    else
      var n := |data| - 1;
      if data[n].0 == path then Some(data[n].1) else LastVal(data[..n], path)
  }

  /** A tree made from a list means the map that the list defines, later entries overriding earlier ones. */
  lemma {:induction false} FromKeyValIsMap<T>(data: KeyVals<T>, path: Path)
    ensures Ordered(InsertAll(New<T>(), data))
    ensures Get(InsertAll(New<T>(), data), path) == LastVal(data, path)
  {
    if data != [] {
      var n := |data| - 1;
      FromKeyValIsMap(data[..n], path);
      GetAfterInsert(InsertAll(New<T>(), data[..n]), data[n].0, data[n].1, path);
    }
  }

  // ---- Flattening

  lemma {:induction false} PrefixLess(at: Path, p: Path, q: Path)
    ensures PathLess(at + p, at + q) == PathLess(p, q)
  {
    if at == [] {
      assert at + p == p && at + q == q;
    } else {
      assert (at + p)[1..] == at[1..] + p && (at + q)[1..] == at[1..] + q;
      LessStrict(at[0], at[0]);
      PrefixLess(at[1..], p, q);
    }
  }

  /** A pair is listed exactly if the tree has that value at that path. */
  lemma {:induction false} ListedExactly<T>(t: Tree<T>, at: Path, p: Path, v: T)
    requires Ordered(t)
    ensures (at + p, v) in PairsOf(t, at) <==> Get(t, p) == Some(v)
    decreases t, 1
  {
    ListedInExactly(t.children, at, p, v);
    assert p == [] ==> at + p == at;
    assert p != [] ==> |at + p| > |at|;
  }

  lemma {:induction false} ListedInExactly<T>(f: Forest<T>, at: Path, p: Path, v: T)
    requires OrderedIn(f)
    ensures (at + p, v) in PairsIn(f, at) <==> p != [] && GetIn(f, p[0], p[1..]) == Some(v)
    decreases f, 0
  {
    match f
    case Nil =>
    case Cons(k, child, rest) =>
      ListedInExactly(rest, at, p, v);
      if p != [] && p[0] == k {
        ListedExactly(child, at + [k], p[1..], v);
        assert at + [k] + p[1..] == at + p;
        if (at + p, v) in PairsIn(rest, at) && rest.Cons? {
          LessStrict(k, rest.key);
          NothingBelow(rest, k, p[1..]);
        }
      } else if (at + p, v) in PairsOf(child, at + [k]) {
        ListedBelow(child, at + [k], at + p, v);
        assert p != [] ==> (at + p)[|at|] == p[0];
      }
  }

  lemma {:induction false} ListedBelow<T>(t: Tree<T>, at: Path, p: Path, v: T)
    requires (p, v) in PairsOf(t, at)
    ensures at <= p
    decreases t, 1
  {
    if (p, v) in PairsIn(t.children, at) {
      var _ := ListedInBelow(t.children, at, p, v);
    }
  }

  lemma {:induction false} ListedInBelow<T>(f: Forest<T>, at: Path, p: Path, v: T) returns (k: string)
    requires (p, v) in PairsIn(f, at)
    ensures at + [k] <= p
    ensures OrderedIn(f) ==> f.key == k || Less(f.key, k)
    decreases f, 0
  {
    if (p, v) in PairsOf(f.child, at + [f.key]) {
      k := f.key;
      ListedBelow(f.child, at + [k], p, v);
    } else {
      k := ListedInBelow(f.rest, at, p, v);
      if OrderedIn(f) && f.rest.key != k {
        LessTransitive(f.key, f.rest.key, k);
      }
    }
  }

  ghost predicate Increasing<T>(pairs: KeyVals<T>) {
    forall i, j :: 0 <= i < j < |pairs| ==> PathLess(pairs[i].0, pairs[j].0)
  }

  lemma IncreasingAppend<T>(a: KeyVals<T>, b: KeyVals<T>)
    requires Increasing(a) && Increasing(b)
    requires forall x, y :: x in a && y in b ==> PathLess(x.0, y.0)
    ensures Increasing(a + b)
  {
  }

  lemma PathsBelowDiffer(at: Path, k: string, l: string, p: Path, q: Path)
    requires Less(k, l) && at + [k] <= p && at + [l] <= q
    ensures PathLess(p, q)
  {
    var p', q' := p[|at|..], q[|at|..];
    assert p == at + p' && q == at + q' && p'[0] == k && q'[0] == l;
    PrefixLess(at, p', q');
  }

  /** Flattening lists the paths in strictly increasing order, so none of them twice. */
  lemma {:induction false} FlattenIsIncreasing<T(!new)>(t: Tree<T>, at: Path)
    requires Ordered(t)
    ensures Increasing(PairsOf(t, at))
    decreases t, 1
  {
    FlattenInIsIncreasing(t.children, at);
    if t.value.Some? {
      forall y | y in PairsIn(t.children, at)
        ensures PathLess(at, y.0)
      {
        var k := ListedInBelow(t.children, at, y.0, y.1);
        PrefixLess(at, [], y.0[|at|..]);
        assert y.0 == at + y.0[|at|..] && at + [] == at;
      }
      IncreasingAppend([(at, t.value.value)], PairsIn(t.children, at));
    } else {
      assert PairsOf(t, at) == PairsIn(t.children, at);
    }
  }

  lemma {:induction false} FlattenInIsIncreasing<T(!new)>(f: Forest<T>, at: Path)
    requires OrderedIn(f)
    ensures Increasing(PairsIn(f, at))
    decreases f, 0
  {
    match f
    case Nil =>
    case Cons(k, child, rest) =>
      FlattenIsIncreasing(child, at + [k]);
      FlattenInIsIncreasing(rest, at);
      forall x, y | x in PairsOf(child, at + [k]) && y in PairsIn(rest, at)
        ensures PathLess(x.0, y.0)
      {
        ListedBelow(child, at + [k], x.0, x.1);
        var l := ListedInBelow(rest, at, y.0, y.1);
        if l != rest.key { LessTransitive(k, rest.key, l); }
        PathsBelowDiffer(at, k, l, x.0, y.0);
      }
      IncreasingAppend(PairsOf(child, at + [k]), PairsIn(rest, at));
  }

  // ---- Forth and back

  lemma {:induction false} LastValIsMember<T(!new)>(data: KeyVals<T>, path: Path)
    requires Increasing(data)
    ensures forall v :: LastVal(data, path) == Some(v) <==> (path, v) in data
  {
    if data != [] {
      var n := |data| - 1;
      LastValIsMember(data[..n], path);
      assert data == data[..n] + [data[n]];
      if data[n].0 == path {
        forall i | 0 <= i < n
          ensures data[i].0 != path
        {
          PathLessStrict(data[i].0);
        }
      }
    }
  }

  lemma {:induction false} PathLessStrict(p: Path)
    ensures !PathLess(p, p)
  {
    if p != [] {
      LessStrict(p[0], p[0]);
      PathLessStrict(p[1..]);
    }
  }

  /** The tree made from the flattened tree has the same value at every path. */
  lemma RebuildKeepsMeaning<T(!new)>(t: Tree<T>, path: Path)
    requires Ordered(t)
    ensures Get(InsertAll(New<T>(), PairsOf(t, [])), path) == Get(t, path)
  {
    var data := PairsOf(t, []);
    FromKeyValIsMap(data, path);
    FlattenIsIncreasing(t, []);
    LastValIsMember(data, path);
    assert [] + path == path;
    if Get(t, path).Some? {
      ListedExactly(t, [], path, Get(t, path).value);
    }
    if LastVal(data, path).Some? {
      ListedExactly(t, [], path, LastVal(data, path).value);
    }
  }

  /** No node is there for nothing: below every child there is a value. */
  predicate Pruned<T>(t: Tree<T>) {
    PrunedIn(t.children)
  }

  predicate PrunedIn<T>(f: Forest<T>) {
    match f
    case Nil => true
    case Cons(_, child, rest) => Pruned(child) && PrunedIn(rest) && (child.value.Some? || child.children.Cons?)
  }

  lemma {:induction false} SomeValue<T>(t: Tree<T>) returns (p: Path)
    requires Pruned(t) && (t.value.Some? || t.children.Cons?)
    ensures Get(t, p).Some?
  {
    if t.value.Some? {
      p := [];
    } else {
      var rest := SomeValue(t.children.child);
      p := [t.children.key] + rest;
    }
  }

  /** Such trees are equal if they have the same value at every path. */
  lemma {:induction false} TreesAreDetermined<T(!new)>(t: Tree<T>, u: Tree<T>)
    requires Ordered(t) && Ordered(u) && Pruned(t) && Pruned(u)
    requires forall p :: Get(t, p) == Get(u, p)
    ensures t == u
    decreases t, 1
  {
    assert Get(t, []) == Get(u, []);
    forall k, p
      ensures GetIn(t.children, k, p) == GetIn(u.children, k, p)
    {
      assert Get(t, [k] + p) == Get(u, [k] + p);
    }
    ForestsAreDetermined(t.children, u.children);
  }

  lemma FirstKeyIsNotLess<T(!new)>(f: Forest<T>, g: Forest<T>)
    requires OrderedIn(f) && OrderedIn(g) && PrunedIn(f) && f.Cons?
    requires forall k, p :: GetIn(f, k, p) == GetIn(g, k, p)
    ensures g.Cons? && !Less(f.key, g.key)
  {
    var p := SomeValue(f.child);
    assert GetIn(f, f.key, p).Some?;
    if g.Cons? && Less(f.key, g.key) {
      NothingBelow(g, f.key, p);
    }
  }

  lemma {:induction false} ForestsAreDetermined<T(!new)>(f: Forest<T>, g: Forest<T>)
    requires OrderedIn(f) && OrderedIn(g) && PrunedIn(f) && PrunedIn(g)
    requires forall k, p :: GetIn(f, k, p) == GetIn(g, k, p)
    ensures f == g
    decreases f, 0
  {
    if f.Cons? {
      FirstKeyIsNotLess(f, g);
    }
    if g.Cons? {
      FirstKeyIsNotLess(g, f);
      LessTotal(f.key, g.key);
      forall p
        ensures Get(f.child, p) == Get(g.child, p)
      {
        assert GetIn(f, f.key, p) == GetIn(g, f.key, p);
      }
      TreesAreDetermined(f.child, g.child);
      forall k, p
        ensures GetIn(f.rest, k, p) == GetIn(g.rest, k, p)
      {
        assert GetIn(f, k, p) == GetIn(g, k, p);
        if k == f.key {
          NothingBelow(f.rest, k, p);
          NothingBelow(g.rest, k, p);
        }
      }
      ForestsAreDetermined(f.rest, g.rest);
    }
  }

  lemma {:induction false} InsertKeepsPruned<T>(t: Tree<T>, p: Path, v: T)
    requires Pruned(t)
    ensures Pruned(Insert(t, p, v)) && (Insert(t, p, v).value.Some? || Insert(t, p, v).children.Cons?)
    decreases |p|, 1
  {
    if p != [] {
      InsertInKeepsPruned(t.children, p[0], p[1..], v);
    }
  }

  lemma {:induction false} InsertInKeepsPruned<T>(f: Forest<T>, key: string, p: Path, v: T)
    requires PrunedIn(f)
    ensures PrunedIn(InsertIn(f, key, p, v)) && InsertIn(f, key, p, v).Cons?
    decreases |p| + 1, 0, f
  {
    InsertKeepsPruned(New<T>(), p, v);
    match f
    case Nil =>
    case Cons(k, child, rest) =>
      InsertKeepsPruned(child, p, v);
      InsertInKeepsPruned(rest, key, p, v);
  }

  lemma {:induction false} InsertAllIsPruned<T>(data: KeyVals<T>)
    ensures Pruned(InsertAll(New<T>(), data)) && Ordered(InsertAll(New<T>(), data))
  {
    if data != [] {
      var n := |data| - 1;
      InsertAllIsPruned(data[..n]);
      InsertKeepsPruned(InsertAll(New<T>(), data[..n]), data[n].0, data[n].1);
      GetAfterInsert(InsertAll(New<T>(), data[..n]), data[n].0, data[n].1, []);
    }
  }

  /** Flattening a tree that was made from a list and making a tree from that gives the same tree. */
  lemma ForthAndBack<T(!new)>(data: KeyVals<T>)
    ensures
      var t := InsertAll(New<T>(), data);
      InsertAll(New<T>(), PairsOf(t, [])) == t
  {
    var t := InsertAll(New<T>(), data);
    InsertAllIsPruned(data);
    InsertAllIsPruned(PairsOf(t, []));
    forall p { RebuildKeepsMeaning(t, p); }
    TreesAreDetermined(InsertAll(New<T>(), PairsOf(t, [])), t);
  }

  // ---- With paths as text

  function SplitPaths<T>(lines: seq<(string, T)>, separator: char): (r: KeyVals<T>)
    ensures |r| == |lines|
    ensures forall i :: 0 <= i < |r| ==> r[i] == (Split(lines[i].0, separator), lines[i].1)
  {
    seq(|lines|, i requires 0 <= i < |lines| => (Split(lines[i].0, separator), lines[i].1))
  }

  /** Paths that can be written with that separator. */
  predicate Separable(path: Path, separator: char) {
    path != [] && forall i :: 0 <= i < |path| ==> separator !in path[i]
  }

  lemma {:induction false} LastValIsGiven<T>(data: KeyVals<T>, path: Path)
    requires LastVal(data, path).Some?
    ensures exists i :: 0 <= i < |data| && data[i].0 == path
  {
    var n := |data| - 1;
    if data[n].0 != path {
      LastValIsGiven(data[..n], path);
      var i :| 0 <= i < n && data[..n][i].0 == path;
      assert data[i].0 == path;
    }
  }

  /** The tree made from text lists only paths that were given. */
  lemma ListedIsSeparable<T(!new)>(data: KeyVals<T>, separator: char, p: Path, v: T)
    requires forall i :: 0 <= i < |data| ==> Separable(data[i].0, separator)
    requires (p, v) in PairsOf(InsertAll(New<T>(), data), [])
    ensures Separable(p, separator)
  {
    var t := InsertAll(New<T>(), data);
    FromKeyValIsMap(data, p);
    assert [] + p == p;
    ListedExactly(t, [], p, v);
    LastValIsGiven(data, p);
  }

  /**
   A tree made from lines of text, whose paths are split at the separator, and written out with the same
   separator: the lines are split into the paths that were listed, and make the same tree again.
   */
  lemma TextForthAndBack<T(!new)>(lines: seq<(string, T)>, separator: char)
    ensures
      var t := InsertAll(New<T>(), SplitPaths(lines, separator));
      var written := Joined(PairsOf(t, []), [separator]);
      SplitPaths(written, separator) == PairsOf(t, []) && InsertAll(New<T>(), SplitPaths(written, separator)) == t
  {
    var data := SplitPaths(lines, separator);
    var t := InsertAll(New<T>(), data);
    var pairs := PairsOf(t, []);
    var written := Joined(pairs, [separator]);
    forall i | 0 <= i < |data|
      ensures Separable(data[i].0, separator)
    {
      JoinUndoesSplit(lines[i].0, separator);
    }
    forall i | 0 <= i < |pairs|
      ensures SplitPaths(written, separator)[i] == pairs[i]
    {
      var (p, v) := pairs[i];
      assert (p, v) in pairs;
      ListedIsSeparable(data, separator, p, v);
      SplitUndoesJoin(p, separator);
    }
    assert SplitPaths(written, separator) == pairs;
    ForthAndBack(data);
  }
}
