/** The commit graph of a Git repository: built oldest first, searched back through the parents. */
module Git {
  import opened Wrappers

  type GitHash = string
  type Id = nat
  type Unixtime = nat

  datatype GitCommit<R> = GitCommit(commitHash: GitHash, authorTime: Unixtime, committerTime: Unixtime, parents: seq<R>)

  /** With the length of the longest parent chain, i.e. 0 for an initial commit. */
  datatype EnrichedCommit = EnrichedCommit(commit: GitCommit<Id>, depth: nat)

  type Commits = seq<EnrichedCommit>

  const MAX_U32: nat := 0xFFFF_FFFF

  datatype GraphError = MoreThanU32Commits | InvalidId

  function Parents(es: Commits, id: Id): seq<Id>
    requires id < |es|
  {
    es[id].commit.parents
  }

  function Hash(es: Commits, id: Id): GitHash
    requires id < |es|
  {
    es[id].commit.commitHash
  }

  function Time(es: Commits, id: Id): Unixtime
    requires id < |es|
  {
    es[id].commit.committerTime
  }

  /** One more than the deepest parent; 0 without parents. */
  function DepthOver(es: Commits, parents: seq<Id>): nat
    requires forall i :: 0 <= i < |parents| ==> parents[i] < |es|
  {
    if parents == [] then 0
    else
      var rest, d := DepthOver(es, parents[1..]), es[parents[0]].depth + 1;
      if d > rest then d else rest
  }

  lemma {:induction false} DepthOverIsMax(es: Commits, parents: seq<Id>)
    requires forall i :: 0 <= i < |parents| ==> parents[i] < |es|
    ensures forall i :: 0 <= i < |parents| ==> es[parents[i]].depth < DepthOver(es, parents)
    ensures parents != [] ==> exists i :: 0 <= i < |parents| && es[parents[i]].depth + 1 == DepthOver(es, parents)
  {
    if parents != [] {
      DepthOverIsMax(es, parents[1..]);
      forall i | 0 <= i < |parents|
        ensures es[parents[i]].depth < DepthOver(es, parents)
      {
        if i > 0 { assert parents[i] == parents[1..][i - 1]; }
      }
      if es[parents[0]].depth + 1 != DepthOver(es, parents) {
        assert parents[1..] != [];
        var i :| 0 <= i < |parents[1..]| && es[parents[1..][i]].depth + 1 == DepthOver(es, parents[1..]);
        assert parents[i + 1] == parents[1..][i];
      }
    }
  }

  lemma {:induction false} DepthOverPrefix(es: Commits, more: Commits, parents: seq<Id>)
    requires forall i :: 0 <= i < |parents| ==> parents[i] < |es|
    ensures DepthOver(es + more, parents) == DepthOver(es, parents)
  {
    if parents != [] {
      DepthOverPrefix(es, more, parents[1..]);
    }
  }

  ghost predicate ParentsSmaller(es: Commits) {
    forall i, k :: 0 <= i < |es| && 0 <= k < |Parents(es, i)| ==> Parents(es, i)[k] < i
  }

  /** The index and the vector are inverse to each other. */
  ghost predicate Indexed(byHash: map<GitHash, Id>, es: Commits) {
    && (forall i :: 0 <= i < |es| ==> Hash(es, i) in byHash && byHash[Hash(es, i)] == i)
    && (forall h :: h in byHash ==> byHash[h] < |es| && Hash(es, byHash[h]) == h)
  }

  ghost predicate Deep(es: Commits)
    requires ParentsSmaller(es)
  {
    forall i :: 0 <= i < |es| ==> es[i].depth == DepthOver(es[..i], Parents(es, i))
  }

  // ---- Chains of parents

  /** Each element is followed by one of its parents. */
  ghost predicate IsChain(es: Commits, c: seq<Id>) {
    && c != [] && (forall k :: 0 <= k < |c| ==> c[k] < |es|)
    && (forall k :: 0 <= k < |c| - 1 ==> c[k + 1] in Parents(es, c[k]))
  }

  ghost predicate ChainFromTo(es: Commits, c: seq<Id>, a: Id, b: Id) {
    IsChain(es, c) && c[0] == a && c[|c| - 1] == b
  }

  /** `b` is `a` or an ancestor of it. */
  ghost predicate Reaches(es: Commits, a: Id, b: Id) {
    exists c :: ChainFromTo(es, c, a, b)
  }

  lemma DepthOfParent(es: Commits, id: Id, p: Id)
    requires ParentsSmaller(es) && Deep(es) && id < |es| && p in Parents(es, id)
    ensures p < id && es[p].depth < es[id].depth
  {
    var k :| 0 <= k < |Parents(es, id)| && Parents(es, id)[k] == p;
    DepthOverIsMax(es[..id], Parents(es, id));
  }

  lemma {:induction false} ChainsAreNotLonger(es: Commits, c: seq<Id>)
    requires ParentsSmaller(es) && Deep(es) && IsChain(es, c)
    ensures |c| - 1 <= es[c[0]].depth
  {
    if |c| > 1 {
      assert IsChain(es, c[1..]);
      ChainsAreNotLonger(es, c[1..]);
      DepthOfParent(es, c[0], c[1]);
    }
  }

  lemma {:induction false} SomeChainIsThatLong(es: Commits, id: Id) returns (c: seq<Id>)
    requires ParentsSmaller(es) && Deep(es) && id < |es|
    ensures IsChain(es, c) && c[0] == id && |c| - 1 == es[id].depth
  {
    var parents := Parents(es, id);
    DepthOverIsMax(es[..id], parents);
    if parents == [] {
      c := [id];
    } else {
      var i :| 0 <= i < |parents| && es[..id][parents[i]].depth + 1 == DepthOver(es[..id], parents);
      var rest := SomeChainIsThatLong(es, parents[i]);
      c := [id] + rest;
    }
  }

  /** The cached depth is the length of the longest chain of parents. */
  lemma DepthIsLongestChain(es: Commits, id: Id)
    requires ParentsSmaller(es) && Deep(es) && id < |es|
    ensures forall c :: IsChain(es, c) && c[0] == id ==> |c| - 1 <= es[id].depth
    ensures exists c :: IsChain(es, c) && c[0] == id && |c| - 1 == es[id].depth
  {
    forall c | IsChain(es, c) && c[0] == id { ChainsAreNotLonger(es, c); }
    var c := SomeChainIsThatLong(es, id);
  }

  lemma ReachesSelf(es: Commits, a: Id)
    requires a < |es|
    ensures Reaches(es, a, a)
  {
    assert ChainFromTo(es, [a], a, a);
  }

  lemma ReachesParent(es: Commits, a: Id, b: Id, p: Id)
    requires ParentsSmaller(es) && Reaches(es, a, b) && b < |es| && p in Parents(es, b)
    ensures p < |es| && Reaches(es, a, p)
  {
    var c :| ChainFromTo(es, c, a, b);
    var k :| 0 <= k < |Parents(es, b)| && Parents(es, b)[k] == p;
    assert ChainFromTo(es, c + [p], a, p);
  }

  /** A set that contains the start and the parents of its members contains all that is reached. */
  lemma {:induction false} ClosedContainsReached(es: Commits, ids: set<Id>, c: seq<Id>)
    requires IsChain(es, c) && c[0] in ids
    requires forall v, p :: v in ids && v < |es| && p in Parents(es, v) ==> p in ids
    ensures c[|c| - 1] in ids
  {
    if |c| > 1 {
      assert IsChain(es, c[1..]);
      ClosedContainsReached(es, ids, c[1..]);
    }
  }

  ghost function Elements(s: seq<Id>): set<Id> {
    set x | x in s
  }

  /** The commits that were visited, among those found so far. */
  ghost predicate HistoryInv(es: Commits, a: Id, visited: set<Id>, found: set<Id>) {
    && a in found && visited <= found
    && (forall x :: x in found ==> x < |es| && Reaches(es, a, x))
    && (forall v :: v in visited ==> Elements(Parents(es, v)) <= found)
  }

  lemma VisitKeepsInv(es: Commits, a: Id, visited: set<Id>, found: set<Id>, id: Id)
    requires ParentsSmaller(es) && HistoryInv(es, a, visited, found) && id in found
    ensures HistoryInv(es, a, visited + {id}, found + Elements(Parents(es, id)))
  {
    forall p | p in Elements(Parents(es, id)) { ReachesParent(es, a, id, p); }
  }

  lemma ElementsConcat(s: seq<Id>, t: seq<Id>)
    ensures Elements(s + t) == Elements(s) + Elements(t)
  {
  }

  lemma ElementsFirst(s: seq<Id>)
    requires s != []
    ensures Elements(s) == {s[0]} + Elements(s[1..])
  {
    assert s == [s[0]] + s[1..];
    ElementsConcat([s[0]], s[1..]);
  }

  lemma ElementsLast(s: seq<Id>)
    requires s != []
    ensures Elements(s) == Elements(s[..|s| - 1]) + {s[|s| - 1]}
  {
    assert s == s[..|s| - 1] + [s[|s| - 1]];
    ElementsConcat(s[..|s| - 1], [s[|s| - 1]]);
  }

  lemma VisitedAreTheReached(es: Commits, a: Id, ids: set<Id>)
    requires HistoryInv(es, a, ids, ids)
    ensures forall x :: x in ids <==> Reaches(es, a, x)
  {
    forall x | Reaches(es, a, x)
      ensures x in ids
    {
      var c :| ChainFromTo(es, c, a, x);
      ClosedContainsReached(es, ids, c);
    }
  }

  // ---- The search back in time

  /** A chain whose commits do not match, except perhaps the last one. */
  ghost predicate UnmatchedChain(es: Commits, isMatch: Id -> bool, c: seq<Id>, a: Id, b: Id) {
    ChainFromTo(es, c, a, b) && forall k :: 0 <= k < |c| - 1 ==> !isMatch(c[k])
  }

  ghost predicate FirstMatchOnWay(es: Commits, isMatch: Id -> bool, a: Id, b: Id) {
    exists c :: UnmatchedChain(es, isMatch, c, a, b)
  }

  /** Every commit reached from `a` was looked at and does not match, or lies behind the frontier. */
  ghost predicate FrontierCuts(es: Commits, isMatch: Id -> bool, a: Id, frontier: set<Id>) {
    forall y :: Reaches(es, a, y) ==> !isMatch(y) || exists f :: f in frontier && Reaches(es, f, y)
  }

  /** What the search has done: `seen` without `current` are the commits followed to their parents. */
  ghost predicate SearchInv(es: Commits, isMatch: Id -> bool, a: Id, seen: set<Id>, current: set<Id>) {
    && a in seen && current <= seen
    && (forall v :: v in seen ==> v < |es| && FirstMatchOnWay(es, isMatch, a, v))
    && (forall v :: v in seen - current ==> !isMatch(v) && forall p :: p in Parents(es, v) ==> p in seen)
  }

  lemma {:induction false} SearchCovers(
      es: Commits, isMatch: Id -> bool, a: Id, seen: set<Id>, current: set<Id>, c: seq<Id>)
    requires SearchInv(es, isMatch, a, seen, current) && IsChain(es, c) && c[0] in seen
    ensures c[|c| - 1] in seen - current || exists f :: f in current && Reaches(es, f, c[|c| - 1])
  {
    if c[0] in current {
      assert ChainFromTo(es, c, c[0], c[|c| - 1]);
    } else if |c| > 1 {
      assert IsChain(es, c[1..]);
      SearchCovers(es, isMatch, a, seen, current, c[1..]);
    }
  }

  lemma SearchCuts(es: Commits, isMatch: Id -> bool, a: Id, seen: set<Id>, current: set<Id>)
    requires SearchInv(es, isMatch, a, seen, current)
    ensures FrontierCuts(es, isMatch, a, current)
  {
    forall y | Reaches(es, a, y)
      ensures !isMatch(y) || exists f :: f in current && Reaches(es, f, y)
    {
      var c :| ChainFromTo(es, c, a, y);
      SearchCovers(es, isMatch, a, seen, current, c);
    }
  }

  lemma FollowParent(es: Commits, isMatch: Id -> bool, a: Id, v: Id, p: Id)
    requires ParentsSmaller(es) && v < |es| && FirstMatchOnWay(es, isMatch, a, v) && !isMatch(v) && p in Parents(es, v)
    ensures p < |es| && FirstMatchOnWay(es, isMatch, a, p)
  {
    var c :| UnmatchedChain(es, isMatch, c, a, v);
    var k :| 0 <= k < |Parents(es, v)| && Parents(es, v)[k] == p;
    assert UnmatchedChain(es, isMatch, c + [p], a, p);
  }

  ghost predicate NewestAmong(es: Commits, ids: set<Id>, x: Id)
    requires forall v :: v in ids ==> v < |es|
  {
    x in ids && forall v :: v in ids ==> Time(es, v) <= Time(es, x)
  }

  /** Newness is by the time of the committer. */
  lemma NewestIsByCommitterTime(es: Commits, ids: set<Id>, x: Id)
    requires forall v :: v in ids ==> v < |es|
    ensures NewestAmong(es, ids, x) <==>
      x in ids && forall v :: v in ids ==> es[v].commit.committerTime <= es[x].commit.committerTime
  {
  }

  lemma {:induction false} NewestExists(es: Commits, ids: set<Id>)
    requires ids != {} && forall v :: v in ids ==> v < |es|
    ensures exists x :: NewestAmong(es, ids, x)
    decreases ids
  {
    var v :| v in ids;
    if ids == {v} {
      assert NewestAmong(es, ids, v);
    } else {
      NewestExists(es, ids - {v});
      var x :| NewestAmong(es, ids - {v}, x);
      assert NewestAmong(es, ids, if Time(es, v) <= Time(es, x) then x else v);
    }
  }

  /** No commit is older than its parents. */
  ghost predicate TimesGrow(es: Commits) {
    forall v, p :: 0 <= v < |es| && p in Parents(es, v) && p < |es| ==> Time(es, p) <= Time(es, v)
  }

  lemma {:induction false} OlderAlongChain(es: Commits, c: seq<Id>)
    requires TimesGrow(es) && IsChain(es, c)
    ensures Time(es, c[|c| - 1]) <= Time(es, c[0])
  {
    if |c| > 1 {
      assert IsChain(es, c[1..]);
      OlderAlongChain(es, c[1..]);
    }
  }

  datatype Visit = Visit(seen: set<Id>, current: set<Id>)

  /** No current commit matches; one of the newest is replaced by those of its parents not seen before. */
  ghost predicate SearchStep(es: Commits, isMatch: Id -> bool, v: Visit, w: Visit) {
    && (forall x :: x in v.current ==> x < |es| && !isMatch(x))
    && exists x :: FollowsTo(es, v, w, x)
  }

  ghost predicate FollowsTo(es: Commits, v: Visit, w: Visit, x: Id)
    requires forall y :: y in v.current ==> y < |es|
  {
    && NewestAmong(es, v.current, x)
    && w.seen == v.seen + Elements(Parents(es, x))
    && w.current == v.current - {x} + (Elements(Parents(es, x)) - v.seen)
  }

  /** The search, step by step, from `a`. */
  ghost predicate Search(es: Commits, isMatch: Id -> bool, a: Id, visits: seq<Visit>) {
    && visits != [] && visits[0] == Visit({a}, {a})
    && forall i :: 0 <= i < |visits| - 1 ==> SearchStep(es, isMatch, visits[i], visits[i + 1])
  }

  ghost function Last(visits: seq<Visit>): Visit
    requires visits != []
  {
    visits[|visits| - 1]
  }

  ghost function Matching(ids: set<Id>, isMatch: Id -> bool): set<Id> {
    set v | v in ids && isMatch(v)
  }

  lemma SearchStepKeepsInv(es: Commits, isMatch: Id -> bool, a: Id, v: Visit, w: Visit)
    requires ParentsSmaller(es) && SearchInv(es, isMatch, a, v.seen, v.current) && SearchStep(es, isMatch, v, w)
    ensures SearchInv(es, isMatch, a, w.seen, w.current)
    ensures v.seen - v.current < w.seen - w.current
  {
    var x :| FollowsTo(es, v, w, x);
    forall p: Id | p in Parents(es, x) { FollowParent(es, isMatch, a, x, p); }
    assert x in (w.seen - w.current) - (v.seen - v.current);
  }

  lemma SearchSnoc(es: Commits, isMatch: Id -> bool, a: Id, visits: seq<Visit>, w: Visit)
    requires Search(es, isMatch, a, visits) && SearchStep(es, isMatch, Last(visits), w)
    ensures Search(es, isMatch, a, visits + [w])
  {
  }

  lemma {:induction false} SearchKeepsInv(es: Commits, isMatch: Id -> bool, a: Id, visits: seq<Visit>)
    requires ParentsSmaller(es) && a < |es| && Search(es, isMatch, a, visits)
    ensures SearchInv(es, isMatch, a, Last(visits).seen, Last(visits).current)
  {
    if |visits| == 1 {
      assert UnmatchedChain(es, isMatch, [a], a, a);
    } else {
      var front := visits[..|visits| - 1];
      SearchKeepsInv(es, isMatch, a, front);
      SearchStepKeepsInv(es, isMatch, a, Last(front), Last(visits));
    }
  }

  /** What comes up to be returned matches and is reached without passing another match. */
  lemma SearchFindsFirstMatch(es: Commits, isMatch: Id -> bool, a: Id, visits: seq<Visit>, x: Id)
    requires ParentsSmaller(es) && a < |es| && Search(es, isMatch, a, visits)
    requires x in Matching(Last(visits).current, isMatch)
    ensures isMatch(x) && Reaches(es, a, x) && FirstMatchOnWay(es, isMatch, a, x)
  {
    SearchKeepsInv(es, isMatch, a, visits);
    var c :| UnmatchedChain(es, isMatch, c, a, x);
    assert ChainFromTo(es, c, a, x);
  }

  /** When nothing is left to follow, neither the commit itself nor any ancestor matches. */
  lemma ExhaustedSearchMeansNoMatch(es: Commits, isMatch: Id -> bool, a: Id, visits: seq<Visit>)
    requires ParentsSmaller(es) && a < |es| && Search(es, isMatch, a, visits) && Last(visits).current == {}
    ensures forall y :: Reaches(es, a, y) ==> !isMatch(y)
  {
    SearchKeepsInv(es, isMatch, a, visits);
    SearchCuts(es, isMatch, a, Last(visits).seen, {});
  }

  /** What was reached but not followed is at most as new as some current commit. */
  lemma UnfollowedIsNotNewer(es: Commits, isMatch: Id -> bool, a: Id, visits: seq<Visit>, y: Id)
    requires ParentsSmaller(es) && TimesGrow(es) && a < |es| && Search(es, isMatch, a, visits)
    requires y < |es| && Reaches(es, a, y) && y !in Last(visits).seen - Last(visits).current
    ensures exists f :: f in Last(visits).current && f < |es| && Time(es, y) <= Time(es, f)
  {
    var v := Last(visits);
    SearchKeepsInv(es, isMatch, a, visits);
    var c :| ChainFromTo(es, c, a, y);
    SearchCovers(es, isMatch, a, v.seen, v.current, c);
    var f :| f in v.current && Reaches(es, f, y);
    var d :| ChainFromTo(es, d, f, y);
    OlderAlongChain(es, d);
  }

  /**
   If no commit is older than its parents, every matching ancestor is at most as new as some commit under
   consideration when the search ends.
   */
  lemma OtherMatchesAreNotNewer(es: Commits, isMatch: Id -> bool, a: Id, visits: seq<Visit>, y: Id)
    requires ParentsSmaller(es) && TimesGrow(es) && a < |es| && Search(es, isMatch, a, visits)
    requires y < |es| && Reaches(es, a, y) && isMatch(y)
    ensures exists f :: f in Last(visits).current && f < |es| && Time(es, y) <= Time(es, f)
  {
    SearchKeepsInv(es, isMatch, a, visits);
    UnfollowedIsNotNewer(es, isMatch, a, visits, y);
  }

  /** And every ancestor that is newer than all of those was followed to its parents, and does not match. */
  lemma NewerOnesWereFollowed(es: Commits, isMatch: Id -> bool, a: Id, visits: seq<Visit>, y: Id)
    requires ParentsSmaller(es) && TimesGrow(es) && a < |es| && Search(es, isMatch, a, visits)
    requires y < |es| && Reaches(es, a, y)
    requires forall f :: f in Last(visits).current && f < |es| ==> Time(es, f) < Time(es, y)
    ensures y in Last(visits).seen - Last(visits).current && !isMatch(y)
  {
    var v := Last(visits);
    SearchKeepsInv(es, isMatch, a, visits);
    if y !in v.seen - v.current {
      UnfollowedIsNotNewer(es, isMatch, a, visits, y);
    }
  }

  /**
   But it need not be the newest match: here commit 3 merges 2, which matches, and 1, whose parent 0
   matches too and is newer than 2; the search ends with 2.
   */
  lemma ResultNeedNotBeNewestMatch() returns (es: Commits, isMatch: Id -> bool, visits: seq<Visit>)
    ensures ParentsSmaller(es) && TimesGrow(es) && Search(es, isMatch, 3, visits)
    ensures Matching(Last(visits).current, isMatch) == {2}
    ensures isMatch(0) && Reaches(es, 3, 0) && Time(es, 0) > Time(es, 2)
  {
    es := [EnrichedCommit(GitCommit("a", 0, 5, []), 0), EnrichedCommit(GitCommit("b", 0, 6, [0]), 1),
           EnrichedCommit(GitCommit("c", 4, 3, []), 0), EnrichedCommit(GitCommit("d", 0, 9, [2, 1]), 2)];
    isMatch := id => id == 0 || id == 2;
    var v, w := Visit({3}, {3}), Visit({3, 2, 1}, {2, 1});
    visits := [v, w];
    assert Elements(Parents(es, 3)) == {2, 1};
    assert FollowsTo(es, v, w, 3);
    assert Matching({2, 1}, isMatch) == {2};
    assert ChainFromTo(es, [3, 1, 0], 3, 0);
  }

  // ---- Building the graph

  ghost predicate AllIn(hashes: seq<GitHash>, known: set<GitHash>) {
    forall i :: 0 <= i < |hashes| ==> hashes[i] in known
  }

  ghost function HashesOf(commits: seq<GitCommit<GitHash>>): set<GitHash> {
    set i | 0 <= i < |commits| :: commits[i].commitHash
  }

  /** Parents are known or come before their children. */
  ghost predicate OldestFirst(commits: seq<GitCommit<GitHash>>, known: set<GitHash>) {
    forall i :: 0 <= i < |commits| ==> AllIn(commits[i].parents, known + HashesOf(commits[..i]))
  }

  /** The graph stores this commit, with the ids of its parents in place of their hashes. */
  ghost predicate Stores(byHash: map<GitHash, Id>, es: Commits, c: GitCommit<GitHash>) {
    && c.commitHash in byHash && byHash[c.commitHash] < |es|
    && var stored := es[byHash[c.commitHash]].commit;
       && stored.commitHash == c.commitHash
       && stored.authorTime == c.authorTime && stored.committerTime == c.committerTime
       && |stored.parents| == |c.parents|
       && forall i :: 0 <= i < |c.parents| ==>
            stored.parents[i] < |es| && es[stored.parents[i]].commit.commitHash == c.parents[i]
  }

  ghost function IdsBelow(n: nat): (ids: set<Id>)
    ensures forall x: Id :: x in ids <==> x < n
  {
    if n == 0 then {} else IdsBelow(n - 1) + {n - 1}
  }

  class GitGraphData {
    var byHash: map<GitHash, Id>
    var ecommits: Commits

    ghost predicate Valid()
      reads this
    {
      && ParentsSmaller(ecommits) && Deep(ecommits) && Indexed(byHash, ecommits)
      && |ecommits| <= MAX_U32 + 1
    }

    constructor ()
      ensures Valid() && ecommits == [] && byHash == map[]
    {
      byHash, ecommits := map[], [];
    }

    /** Does not check whether the commit is there already. */
    method UncheckedPush(commit: GitCommit<Id>) returns (r: Result<Id, GraphError>)
      requires forall i :: 0 <= i < |commit.parents| ==> commit.parents[i] < |ecommits|
      modifies this
      ensures r == if |old(ecommits)| > MAX_U32 then Failure(MoreThanU32Commits) else Success(|old(ecommits)|)
      ensures r.Failure? ==> ecommits == old(ecommits) && byHash == old(byHash)
      ensures r.Success? ==>
        && ecommits == old(ecommits) + [EnrichedCommit(commit, DepthOver(old(ecommits), commit.parents))]
        && byHash == old(byHash)[commit.commitHash := r.value]
      ensures old(Valid()) && commit.commitHash !in old(byHash) ==> Valid()
    {
      if |ecommits| > MAX_U32 {
        return Failure(MoreThanU32Commits);
      }
      var id := |ecommits|;
      ghost var before := ecommits;
      var ecommit := EnrichedCommit(commit, DepthOver(ecommits, commit.parents));
      byHash := byHash[commit.commitHash := id];
      ecommits := ecommits + [ecommit];
      assert forall i :: 0 <= i < id ==> ecommits[..i] == before[..i] && Hash(ecommits, i) == Hash(before, i);
      assert ecommits[..id] == before && Hash(ecommits, id) == commit.commitHash;
      return Success(id);
    }

    /** All commits reached from `id0` by following parents. */
    method HistoryFrom(id0: Id) returns (ids: set<Id>)
      requires Valid() && id0 < |ecommits|
      ensures forall x :: x in ids <==> Reaches(ecommits, id0, x)
      ensures id0 in ids && forall x, p :: x in ids && x < |ecommits| && p in ecommits[x].commit.parents ==> p in ids
    {
      var id: Id := id0;
      ids := {};
      var stack: seq<Id> := [];
      ReachesSelf(ecommits, id0);
      while true
        invariant HistoryInv(ecommits, id0, ids, ids + {id} + Elements(stack))
        invariant id < |ecommits|
        decreases IdsBelow(|ecommits|) - ids, |stack|
      {
        ghost var found := ids + {id} + Elements(stack);
        if id !in ids {
          VisitKeepsInv(ecommits, id0, ids, found, id);
          ids := ids + {id};
          var parents := Parents(ecommits, id);
          if parents != [] {
            ElementsFirst(parents);
            ElementsConcat(stack, parents[1..]);
            id := parents[0];
            stack := stack + parents[1..];
            assert found + Elements(parents) == ids + {id} + Elements(stack);
            continue;
          }
          assert found + Elements(parents) == found;
        }
        assert found == ids + Elements(stack);
        if stack != [] {
          ElementsLast(stack);
          id := stack[|stack| - 1];
          stack := stack[..|stack| - 1];
          assert found == ids + {id} + Elements(stack);
        } else {
          assert found == ids;
          break;
        }
      }
      VisitedAreTheReached(ecommits, id0, ids);
    }

    /**
     The search for a matching ancestor; `visits` are its steps. Ties between equally new commits are
     broken in any way.
     */
    method ClosestMatchingAncestorOf(forId: Id, isMatch: Id -> bool)
      returns (r: Result<Option<Id>, GraphError>, ghost visits: seq<Visit>)
      requires Valid()
      ensures r.Failure? <==> forId >= |ecommits|
      ensures r.Success? ==> Search(ecommits, isMatch, forId, visits)
      ensures r == Success(None) ==>
        Last(visits).current == {} && forall y :: Reaches(ecommits, forId, y) ==> !isMatch(y)
      ensures r.Success? && r.value.Some? ==>
        && isMatch(r.value.value) && FirstMatchOnWay(ecommits, isMatch, forId, r.value.value)
        && (forall f :: f in Matching(Last(visits).current, isMatch) ==> f < |ecommits|)
        && NewestAmong(ecommits, Matching(Last(visits).current, isMatch), r.value.value)
    {
      visits := [Visit({forId}, {forId})];
      var seen, current := {forId}, {forId};
      if forId >= |ecommits| {
        return Failure(InvalidId), [];
      }
      while current != {}
        invariant Search(ecommits, isMatch, forId, visits) && Last(visits) == Visit(seen, current)
        decreases IdsBelow(|ecommits|) - (seen - current)
      {
        SearchKeepsInv(ecommits, isMatch, forId, visits);
        var matching := set v | v in current && isMatch(v);
        if matching != {} {
          NewestExists(ecommits, matching);
          var x :| x in matching && forall v :: v in matching ==> Time(ecommits, v) <= Time(ecommits, x);
          SearchFindsFirstMatch(ecommits, isMatch, forId, visits, x);
          return Success(Some(x)), visits;
        }
        ghost var before := Visit(seen, current);
        seen, current := FollowNewest(isMatch, seen, current);
        SearchStepKeepsInv(ecommits, isMatch, forId, before, Visit(seen, current));
        SearchSnoc(ecommits, isMatch, forId, visits, Visit(seen, current));
        visits := visits + [Visit(seen, current)];
      }
      ExhaustedSearchMeansNoMatch(ecommits, isMatch, forId, visits);
      return Success(None), visits;
    }

    /** Replaces one of the newest current commits by its parents. */
    method FollowNewest(
        isMatch: Id -> bool, seen0: set<Id>, current0: set<Id>)
      returns (seen: set<Id>, current: set<Id>)
      requires current0 != {} && Matching(current0, isMatch) == {} && forall v :: v in current0 ==> v < |ecommits|
      ensures SearchStep(ecommits, isMatch, Visit(seen0, current0), Visit(seen, current))
    {
      NewestExists(ecommits, current0);
      var x :| x in current0 && forall v :: v in current0 ==> Time(ecommits, v) <= Time(ecommits, x);
      seen, current := AddParents(x, seen0, current0);
      assert forall v :: v in current0 ==> v !in Matching(current0, isMatch);
      assert FollowsTo(ecommits, Visit(seen0, current0), Visit(seen, current), x);
    }

    /** Follows commit `x` to its parents. */
    method AddParents(x: Id, seen0: set<Id>, current0: set<Id>) returns (seen: set<Id>, current: set<Id>)
      requires x < |ecommits| && x in current0
      ensures seen == seen0 + Elements(Parents(ecommits, x))
      ensures current == current0 - {x} + (Elements(Parents(ecommits, x)) - seen0)
    {
      seen, current := seen0, current0 - {x};
      var parents := Parents(ecommits, x);
      for i := 0 to |parents|
        invariant seen == seen0 + Elements(parents[..i])
        invariant current == current0 - {x} + (Elements(parents[..i]) - seen0)
      {
        ElementsLast(parents[..i + 1]);
        assert parents[..i + 1][..i] == parents[..i];
        if parents[i] !in seen {
          current := current + {parents[i]};
          seen := seen + {parents[i]};
        }
      }
      assert parents[..|parents|] == parents;
    }

    /** One commit of a history; tells its id. */
    method Record(c: GitCommit<GitHash>) returns (r: Result<Id, GraphError>)
      requires Valid() && AllIn(c.parents, byHash.Keys)
      modifies this
      ensures Valid() && Extends(old(byHash), old(ecommits), byHash, ecommits)
      ensures r.Failure? ==> r.error == MoreThanU32Commits && |ecommits| == MAX_U32 + 1
      ensures c.commitHash in old(byHash) ==> r.Success? && ecommits == old(ecommits) && byHash == old(byHash)
      ensures r.Success? ==>
        && byHash.Keys == old(byHash.Keys) + {c.commitHash} && r.value == byHash[c.commitHash]
        && (c.commitHash !in old(byHash) ==> Stores(byHash, ecommits, c))
    {
      if c.commitHash in byHash {
        return Success(byHash[c.commitHash]);
      }
      ghost var es, index := ecommits, byHash;
      var ids := seq(|c.parents|,
                     k requires 0 <= k < |c.parents| && c.parents[k] in byHash reads this => byHash[c.parents[k]]);
      r := UncheckedPush(GitCommit(c.commitHash, c.authorTime, c.committerTime, ids));
      if r.Success? {
        StoresNew(index, es, byHash, ecommits, c, ids);
      }
    }

    /** Adds a history, given oldest first; gives the id of its last commit. */
    method FromCommits(commits: seq<GitCommit<GitHash>>) returns (r: Result<Id, GraphError>)
      requires Valid() && commits != [] && OldestFirst(commits, byHash.Keys)
      modifies this
      ensures Valid() && Extends(old(byHash), old(ecommits), byHash, ecommits)
      ensures r.Failure? ==> r.error == MoreThanU32Commits && |ecommits| == MAX_U32 + 1
      ensures r.Success? ==>
        && byHash.Keys == old(byHash.Keys) + HashesOf(commits)
        && r.value == byHash[commits[|commits| - 1].commitHash]
        && StoresNewOnes(old(byHash.Keys), byHash, ecommits, commits, |commits|)
      ensures HashesOf(commits) <= old(byHash.Keys) ==> r.Success? && ecommits == old(ecommits) && byHash == old(byHash)
    {
      r := Failure(InvalidId);
      for i := 0 to |commits|
        invariant Valid() && Recorded(old(byHash), old(ecommits), byHash, ecommits, commits, i)
        invariant i > 0 ==> commits[i - 1].commitHash in byHash && r == Success(byHash[commits[i - 1].commitHash])
      {
        ghost var es, index := ecommits, byHash;
        HashesStep(commits, i);
        r := Record(commits[i]);
        ExtendsTransitively(old(byHash), old(ecommits), index, es, byHash, ecommits);
        if r.Failure? {
          return;
        }
        RecordOneMore(old(byHash), old(ecommits), index, es, byHash, ecommits, commits, i);
      }
      assert commits[..|commits|] == commits;
    }
  }

  /** The state after the first `n` commits of a history. */
  ghost predicate Recorded(index0: map<GitHash, Id>, es0: Commits, index: map<GitHash, Id>, es: Commits,
                           commits: seq<GitCommit<GitHash>>, n: nat)
    requires n <= |commits|
  {
    && Extends(index0, es0, index, es)
    && index.Keys == index0.Keys + HashesOf(commits[..n])
    && StoresNewOnes(index0.Keys, index, es, commits, n)
    && (HashesOf(commits) <= index0.Keys ==> es == es0 && index == index0)
  }

  lemma RecordOneMore(index0: map<GitHash, Id>, es0: Commits, index: map<GitHash, Id>, es: Commits,
                      index': map<GitHash, Id>, es': Commits, commits: seq<GitCommit<GitHash>>, n: nat)
    requires n < |commits| && Recorded(index0, es0, index, es, commits, n) && Extends(index, es, index', es')
    requires var h := commits[n].commitHash;
      && index'.Keys == index.Keys + {h} && (h in index ==> es' == es && index' == index)
      && (h !in index ==> Stores(index', es', commits[n]))
    ensures Recorded(index0, es0, index', es', commits, n + 1)
  {
    HashesStep(commits, n);
    ExtendsTransitively(index0, es0, index, es, index', es');
    StoresLater(index, es, index', es');
  }

  /** Only additions: ids and commits stay what they were. */
  ghost predicate Extends(index: map<GitHash, Id>, es: Commits, index': map<GitHash, Id>, es': Commits) {
    es <= es' && forall h :: h in index ==> h in index' && index'[h] == index[h]
  }

  lemma ExtendsTransitively(
      index: map<GitHash, Id>, es: Commits, index': map<GitHash, Id>, es': Commits, index'': map<GitHash, Id>,
      es'': Commits)
    requires Extends(index, es, index', es') && Extends(index', es', index'', es'')
    ensures Extends(index, es, index'', es'')
  {
  }

  /** Of the first `n` commits, those that were not known are stored as given (at their first occurrence). */
  ghost predicate StoresNewOnes(
      known: set<GitHash>, index: map<GitHash, Id>, es: Commits, commits: seq<GitCommit<GitHash>>, n: nat)
    requires n <= |commits|
  {
    forall j :: 0 <= j < n && commits[j].commitHash !in known + HashesOf(commits[..j]) ==> Stores(index, es, commits[j])
  }

  lemma HashesStep(commits: seq<GitCommit<GitHash>>, i: nat)
    requires i < |commits|
    ensures HashesOf(commits[..i + 1]) == HashesOf(commits[..i]) + {commits[i].commitHash}
    ensures commits[i].commitHash in HashesOf(commits)
  {
    var a, b := commits[..i], commits[..i + 1];
    assert b == a + [commits[i]];
    forall h
      ensures h in HashesOf(b) <==> h in HashesOf(a) || h == commits[i].commitHash
    {
      if h in HashesOf(a) {
        var k :| 0 <= k < |a| && a[k].commitHash == h;
        assert b[k] == a[k];
      }
      assert b[i] == commits[i];
    }
  }

  /** What a graph stores stays stored. */
  lemma StoresLater(index: map<GitHash, Id>, es: Commits, index': map<GitHash, Id>, es': Commits)
    requires Extends(index, es, index', es')
    ensures forall c :: Stores(index, es, c) ==> Stores(index', es', c)
  {
  }

  lemma StoresNew(
      index: map<GitHash, Id>, es: Commits, index': map<GitHash, Id>, es': Commits, c: GitCommit<GitHash>, ids: seq<Id>)
    requires Indexed(index, es) && |ids| == |c.parents|
    requires forall k :: 0 <= k < |ids| ==> c.parents[k] in index && ids[k] == index[c.parents[k]]
    requires es <= es' && |es'| == |es| + 1
    requires es'[|es|].commit == GitCommit(c.commitHash, c.authorTime, c.committerTime, ids)
    requires c.commitHash in index' && index'[c.commitHash] == |es|
    ensures Stores(index', es', c)
  {
    forall k | 0 <= k < |ids|
      ensures ids[k] < |es| && es'[ids[k]].commit.commitHash == c.parents[k]
    {
      assert Hash(es, ids[k]) == c.parents[k] && es'[ids[k]] == es[ids[k]];
    }
  }
}
