/**
 Spans grouped by call path.

 Chunks of spans are grouped in parallel, and the groups of the chunks are merged in the order in which
 they come; every order and every grouping of the merges gives the spans of each path equally often as
 grouping all spans directly.
 */
module CallPaths {
  import opened Sequences

  type SpanId = nat
  type Index = map<string, seq<SpanId>>

  /** The call path of a span, for each of the ways to show paths. */
  type Paths = SpanId -> seq<string>

  function At(index: Index, path: string): seq<SpanId> {
    if path in index then index[path] else []
  }

  // ---- Grouping directly

  function Hits(id: SpanId, paths: seq<string>, path: string): seq<SpanId> {
    if paths == [] then []
    else Hits(id, paths[..|paths| - 1], path) + if paths[|paths| - 1] == path then [id] else []
  }

  /** The spans at a path, in order, once for each way in which they have it. */
  function Direct(ids: seq<SpanId>, paths: Paths, path: string): seq<SpanId> {
    if ids == [] then []
    else Direct(ids[..|ids| - 1], paths, path) + Hits(ids[|ids| - 1], paths(ids[|ids| - 1]), path)
  }

  lemma {:induction false} DirectAppend(a: seq<SpanId>, b: seq<SpanId>, paths: Paths, path: string)
    ensures Direct(a + b, paths, path) == Direct(a, paths, path) + Direct(b, paths, path)
  {
    if b == [] {
      assert a + b == a;
    } else {
      var front, last := b[..|b| - 1], b[|b| - 1];
      assert (a + b)[..|a + b| - 1] == a + front;
      DirectAppend(a, front, paths, path);
      Associate(Direct(a, paths, path), Direct(front, paths, path), Hits(last, paths(last), path));
    }
  }

  /** An index that holds exactly the spans of `ids`, and no path without spans. */
  ghost predicate Groups(index: Index, ids: seq<SpanId>, paths: Paths) {
    && (forall path :: At(index, path) == Direct(ids, paths, path))
    && (forall path :: path in index ==> index[path] != [])
  }

  method Add(index: Index, path: string, id: SpanId) returns (r: Index)
    requires forall p :: p in index ==> index[p] != []
    ensures forall p :: At(r, p) == At(index, p) + if p == path then [id] else []
    ensures forall p :: p in r ==> r[p] != []
  {
    if path in index {
      r := index[path := index[path] + [id]];
    } else {
      r := index[path := [id]];
    }
  }

  method IndexChunk(ids: seq<SpanId>, paths: Paths) returns (index: Index)
    ensures Groups(index, ids, paths)
  {
    index := map[];
    var i := 0;
    while i < |ids|
      invariant i <= |ids| && Groups(index, ids[..i], paths)
    {
      index := AddSpan(index, ids[..i], ids[i], paths);
      assert ids[..i + 1] == ids[..i] + [ids[i]];
      i := i + 1;
    }
    assert ids[..i] == ids;
  }

  method AddSpan(index: Index, ghost ids: seq<SpanId>, id: SpanId, paths: Paths) returns (r: Index)
    requires Groups(index, ids, paths)
    ensures Groups(r, ids + [id], paths)
  {
    r := index;
    var all, j := paths(id), 0;
    NoHits(index, id, all);
    while j < |all|
      invariant j <= |all| && HasAdded(index, r, id, all[..j])
      invariant forall p :: p in r ==> r[p] != []
    {
      ghost var before := r;
      r := Add(r, all[j], id);
      HitsNext(index, before, r, id, all, j);
      j := j + 1;
    }
    assert all[..j] == all;
    GroupsNext(index, r, ids, id, paths);
  }

  /** The index with a span added at some paths. */
  ghost predicate HasAdded(index: Index, r: Index, id: SpanId, paths: seq<string>) {
    forall p :: At(r, p) == At(index, p) + Hits(id, paths, p)
  }

  lemma NoHits(index: Index, id: SpanId, paths: seq<string>)
    ensures HasAdded(index, index, id, paths[..0])
  {
  }

  lemma HitsNext(index: Index, before: Index, r: Index, id: SpanId, paths: seq<string>, j: nat)
    requires j < |paths| && HasAdded(index, before, id, paths[..j])
    requires forall p :: At(r, p) == At(before, p) + if p == paths[j] then [id] else []
    ensures HasAdded(index, r, id, paths[..j + 1])
  {
    forall p
      ensures At(r, p) == At(index, p) + Hits(id, paths[..j + 1], p)
    {
      HitsSnoc(id, paths, j, p);
      Associate(At(index, p), Hits(id, paths[..j], p), if paths[j] == p then [id] else []);
    }
  }

  lemma HitsSnoc(id: SpanId, paths: seq<string>, j: nat, path: string)
    requires j < |paths|
    ensures Hits(id, paths[..j + 1], path) == Hits(id, paths[..j], path) + if paths[j] == path then [id] else []
  {
    assert paths[..j + 1][..j] == paths[..j];
  }

  lemma GroupsNext(index: Index, r: Index, ids: seq<SpanId>, id: SpanId, paths: Paths)
    requires Groups(index, ids, paths) && forall p :: p in r ==> r[p] != []
    requires HasAdded(index, r, id, paths(id))
    ensures Groups(r, ids + [id], paths)
  {
    forall p
      ensures At(r, p) == Direct(ids + [id], paths, p)
    {
      assert (ids + [id])[..|ids|] == ids;
      assert At(index, p) == Direct(ids, paths, p);
    }
  }

  // ---- Merging

  method Merge(a: Index, b: Index) returns (r: Index)
    requires forall p :: p in a ==> a[p] != []
    requires forall p :: p in b ==> b[p] != []
    ensures forall p :: At(r, p) == At(a, p) + At(b, p)
    ensures forall p :: p in r ==> r[p] != []
  {
    r := a;
    var left := b.Keys;
    while left != {}
      invariant left <= b.Keys && forall p :: p in r ==> r[p] != []
      invariant forall p :: At(r, p) == At(a, p) + if p in left then [] else At(b, p)
      decreases left
    {
      var k :| k in left;
      if k in r {
        r := r[k := r[k] + b[k]];
      } else {
        r := r[k := b[k]];
      }
      left := left - {k};
    }
  }

  function Flatten(chunks: seq<seq<SpanId>>): seq<SpanId> {
    if chunks == [] then [] else Flatten(chunks[..|chunks| - 1]) + chunks[|chunks| - 1]
  }

  /** Chunks of `size`, the last one perhaps shorter. */
  function Chunks(ids: seq<SpanId>, size: nat): (r: seq<seq<SpanId>>)
    requires size > 0
    decreases |ids|
  {
    if |ids| == 0 then [] else
    if |ids| <= size then [ids] else [ids[..size]] + Chunks(ids[size..], size)
  }

  lemma {:induction false} FlattenCons(a: seq<SpanId>, chunks: seq<seq<SpanId>>)
    ensures Flatten([a] + chunks) == a + Flatten(chunks)
  {
    var all := [a] + chunks;
    if chunks == [] {
      assert all[..0] == [];
      assert [] + a == a + [];
    } else {
      assert all[..|all| - 1] == [a] + chunks[..|chunks| - 1];
      FlattenCons(a, chunks[..|chunks| - 1]);
      Associate(a, Flatten(chunks[..|chunks| - 1]), chunks[|chunks| - 1]);
    }
  }

  lemma {:induction false} ChunksFlatten(ids: seq<SpanId>, size: nat)
    requires size > 0
    ensures Flatten(Chunks(ids, size)) == ids
    decreases |ids|
  {
    if 0 < |ids| <= size {
      assert [ids][..0] == [];
      assert [] + ids == ids;
    } else if |ids| > size {
      FlattenCons(ids[..size], Chunks(ids[size..], size));
      ChunksFlatten(ids[size..], size);
    }
  }

  /** How the groups of the chunks are combined: any grouping and any order, from empty indexes too. */
  datatype Reduction = Identity | Chunk(i: nat) | Combine(left: Reduction, right: Reduction) {
    function Leaves(): seq<nat> {
      match this
      case Identity => []
      case Chunk(i) => [i]
      case Combine(left, right) => left.Leaves() + right.Leaves()
    }
  }

  /** Every chunk is used exactly once. */
  ghost predicate Complete(leaves: seq<nat>, n: nat) {
    multiset(leaves) == multiset(Upto(n))
  }

  function Upto(n: nat): (r: seq<nat>)
    ensures |r| == n && forall i :: 0 <= i < n ==> r[i] == i
  {
    if n == 0 then [] else Upto(n - 1) + [n - 1]
  }

  predicate InRange(leaves: seq<nat>, n: nat) {
    forall i :: 0 <= i < |leaves| ==> leaves[i] < n
  }

  /** The spans of the chunks in the order of the leaves. */
  function Picked(chunks: seq<seq<SpanId>>, leaves: seq<nat>): seq<SpanId>
    requires InRange(leaves, |chunks|)
  {
    if leaves == [] then [] else chunks[leaves[0]] + Picked(chunks, leaves[1..])
  }

  lemma {:induction false} PickedAppend(chunks: seq<seq<SpanId>>, a: seq<nat>, b: seq<nat>)
    requires InRange(a, |chunks|) && InRange(b, |chunks|)
    ensures InRange(a + b, |chunks|)
    ensures Picked(chunks, a + b) == Picked(chunks, a) + Picked(chunks, b)
  {
    if a == [] {
      assert a + b == b;
    } else {
      assert (a + b)[1..] == a[1..] + b;
      PickedAppend(chunks, a[1..], b);
      Associate(chunks[a[0]], Picked(chunks, a[1..]), Picked(chunks, b));
    }
  }

  method Reduce(chunks: seq<seq<SpanId>>, paths: Paths, t: Reduction) returns (index: Index)
    requires InRange(t.Leaves(), |chunks|)
    ensures Groups(index, Picked(chunks, t.Leaves()), paths)
    decreases t
  {
    match t
    case Identity => index := map[];
    case Chunk(i) =>
      assert t.Leaves()[0] == i && Picked(chunks, [i]) == chunks[i];
      index := IndexChunk(chunks[i], paths);
    case Combine(l, r) =>
      LeavesInRange(l.Leaves(), r.Leaves(), |chunks|);
      var a := Reduce(chunks, paths, l);
      var b := Reduce(chunks, paths, r);
      index := Merge(a, b);
      PickedAppend(chunks, l.Leaves(), r.Leaves());
      forall path
        ensures At(index, path) == Direct(Picked(chunks, t.Leaves()), paths, path)
      {
        DirectAppend(Picked(chunks, l.Leaves()), Picked(chunks, r.Leaves()), paths, path);
      }
  }

  lemma LeavesInRange(a: seq<nat>, b: seq<nat>, n: nat)
    requires InRange(a + b, n)
    ensures InRange(a, n) && InRange(b, n)
  {
    assert forall i :: 0 <= i < |a| ==> a[i] == (a + b)[i];
    assert forall i :: 0 <= i < |b| ==> b[i] == (a + b)[|a| + i];
  }

  // ---- The order of the chunks does not matter

  lemma SameMembers(a: seq<nat>, b: seq<nat>, x: nat)
    requires multiset(a) == multiset(b) && x in a
    ensures x in b
  {
    assert x in multiset(a);
  }

  lemma Cancel(x: multiset<nat>, a: multiset<nat>, b: multiset<nat>, c: multiset<nat>)
    requires x + a == b + (x + c)
    ensures a == b + c
  {
    forall k: nat
      ensures a[k] == (b + c)[k]
    {
      assert (x + a)[k] == (b + (x + c))[k];
    }
  }

  lemma RemoveOne(a: seq<nat>, pre: seq<nat>, x: nat, post: seq<nat>)
    requires multiset([x] + a) == multiset(pre + ([x] + post))
    ensures multiset(a) == multiset(pre + post)
  {
    assert multiset([x] + a) == multiset{x} + multiset(a);
    assert multiset(pre + ([x] + post)) == multiset(pre) + (multiset{x} + multiset(post));
    assert multiset(pre + post) == multiset(pre) + multiset(post);
    Cancel(multiset{x}, multiset(a), multiset(pre), multiset(post));
  }

  lemma {:induction false} PickedPermuted(chunks: seq<seq<SpanId>>, a: seq<nat>, b: seq<nat>)
    requires InRange(a, |chunks|) && InRange(b, |chunks|) && multiset(a) == multiset(b)
    ensures multiset(Picked(chunks, a)) == multiset(Picked(chunks, b))
    decreases |a|
  {
    if a == [] {
      assert |multiset(b)| == 0;
    } else {
      SameMembers(a, b, a[0]);
      var k :| 0 <= k < |b| && b[k] == a[0];
      var pre, post := b[..k], b[k + 1..];
      assert b == pre + ([a[0]] + post);
      assert a == [a[0]] + a[1..];
      RemoveOne(a[1..], pre, a[0], post);
      PickedPermuted(chunks, a[1..], pre + post);
      PickedMiddle(chunks, pre, a[0], post);
    }
  }

  lemma PickedMiddle(chunks: seq<seq<SpanId>>, pre: seq<nat>, x: nat, post: seq<nat>)
    requires InRange(pre, |chunks|) && InRange(post, |chunks|) && x < |chunks|
    ensures InRange(pre + ([x] + post), |chunks|) && InRange(pre + post, |chunks|)
    ensures multiset(Picked(chunks, pre + ([x] + post))) == multiset(chunks[x]) + multiset(Picked(chunks, pre + post))
  {
    PickedAppend(chunks, pre, [x] + post);
    PickedAppend(chunks, pre, post);
    assert ([x] + post)[1..] == post;
  }

  lemma {:induction false} PickedUpto(chunks: seq<seq<SpanId>>, n: nat)
    requires n <= |chunks|
    ensures InRange(Upto(n), |chunks|) && Picked(chunks, Upto(n)) == Flatten(chunks[..n])
  {
    if n > 0 {
      PickedUpto(chunks, n - 1);
      PickedAppend(chunks, Upto(n - 1), [n - 1]);
      assert [n - 1][1..] == [] && Picked(chunks, [n - 1]) == chunks[n - 1];
      assert chunks[..n][..n - 1] == chunks[..n - 1];
    }
  }

  function Count(ids: seq<SpanId>, id: SpanId): nat {
    multiset(ids)[id]
  }

  lemma CountAppend(a: seq<SpanId>, b: seq<SpanId>, id: SpanId)
    ensures Count(a + b, id) == Count(a, id) + Count(b, id)
  {
    assert multiset(a + b) == multiset(a) + multiset(b);
  }

  lemma CountOne(x: SpanId, id: SpanId)
    ensures Count([x], id) == if x == id then 1 else 0
  {
    assert multiset([x]) == multiset{x};
  }

  lemma Product(n: nat, here: bool, k: nat, m: nat)
    requires m == n + if here then 1 else 0
    ensures m * k == n * k + if here then k else 0
  {
    assert (n + 1) * k == n * k + k;
  }

  lemma {:induction false} DirectCounts(ids: seq<SpanId>, paths: Paths, path: string, id: SpanId)
    ensures Count(Direct(ids, paths, path), id) == Count(ids, id) * |Hits(id, paths(id), path)|
  {
    if ids != [] {
      var front, last := ids[..|ids| - 1], ids[|ids| - 1];
      DirectCounts(front, paths, path, id);
      HitsCount(last, paths(last), path, id);
      CountAppend(Direct(front, paths, path), Hits(last, paths(last), path), id);
      assert ids == front + [last];
      CountAppend(front, [last], id);
      CountOne(last, id);
      Product(Count(front, id), last == id, |Hits(id, paths(id), path)|, Count(ids, id));
    }
  }

  lemma {:induction false} HitsCount(x: SpanId, paths: seq<string>, path: string, id: SpanId)
    ensures Count(Hits(x, paths, path), id) == if x == id then |Hits(x, paths, path)| else 0
  {
    if paths != [] {
      HitsCount(x, paths[..|paths| - 1], path, id);
    }
  }

  lemma {:induction false} HitsAreOccurrences(id: SpanId, paths: seq<string>, path: string)
    ensures |Hits(id, paths, path)| == multiset(paths)[path]
  {
    if paths != [] {
      var front, last := paths[..|paths| - 1], paths[|paths| - 1];
      HitsAreOccurrences(id, front, path);
      assert paths == front + [last];
      assert multiset(paths) == multiset(front) + multiset{last};
    }
  }

  /** At a path a span is as often as it is given, times the number of ways to show it that have this path. */
  lemma DirectIsProduct(ids: seq<SpanId>, paths: Paths, path: string, id: SpanId)
    ensures multiset(Direct(ids, paths, path))[id] == multiset(ids)[id] * multiset(paths(id))[path]
  {
    DirectCounts(ids, paths, path, id);
    HitsAreOccurrences(id, paths(id), path);
  }

  const CHUNK_SIZE: nat := 1000

  /** The same spans as by grouping them all at once, each as often. */
  lemma AnyOrderIsDirect(ids: seq<SpanId>, paths: Paths, leaves: seq<nat>, path: string)
    requires InRange(leaves, |Chunks(ids, CHUNK_SIZE)|) && Complete(leaves, |Chunks(ids, CHUNK_SIZE)|)
    ensures multiset(Direct(Picked(Chunks(ids, CHUNK_SIZE), leaves), paths, path)) == multiset(Direct(ids, paths, path))
    ensures leaves == Upto(|Chunks(ids, CHUNK_SIZE)|) ==>
      Direct(Picked(Chunks(ids, CHUNK_SIZE), leaves), paths, path) == Direct(ids, paths, path)
  {
    var chunks := Chunks(ids, CHUNK_SIZE);
    var all, upto := Picked(chunks, leaves), Upto(|chunks|);
    PickedUpto(chunks, |chunks|);
    assert chunks[..|chunks|] == chunks;
    ChunksFlatten(ids, CHUNK_SIZE);
    PickedPermuted(chunks, leaves, upto);
    assert multiset(all) == multiset(ids);
    var a, b := multiset(Direct(all, paths, path)), multiset(Direct(ids, paths, path));
    forall id: SpanId
      ensures a[id] == b[id]
    {
      DirectCounts(all, paths, path, id);
      DirectCounts(ids, paths, path, id);
    }
    assert a == b;
  }

  /** For every order in which the chunks are done and merged. */
  method FromLogDataIndex(ids: seq<SpanId>, paths: Paths, t: Reduction) returns (index: Index)
    requires InRange(t.Leaves(), |Chunks(ids, CHUNK_SIZE)|) && Complete(t.Leaves(), |Chunks(ids, CHUNK_SIZE)|)
    ensures forall path :: multiset(At(index, path)) == multiset(Direct(ids, paths, path))
    ensures forall path :: path in index <==> Direct(ids, paths, path) != []
  {
    var chunks := Chunks(ids, CHUNK_SIZE);
    index := Reduce(chunks, paths, t);
    forall path
      ensures multiset(At(index, path)) == multiset(Direct(ids, paths, path))
      ensures path in index <==> Direct(ids, paths, path) != []
    {
      AnyOrderIsDirect(ids, paths, t.Leaves(), path);
      assert |multiset(At(index, path))| == |At(index, path)|;
      assert |multiset(Direct(ids, paths, path))| == |Direct(ids, paths, path)|;
    }
  }
}
