/** When the search for the closest matching ancestor finds the newest of all matching ancestors. */
module NewestMatch {
  import opened Git

  /** Every commit is newer than its parents. */
  ghost predicate ChildrenNewer(es: Commits) {
    forall v, p :: 0 <= v < |es| && p in Parents(es, v) && p < |es| ==> Time(es, p) < Time(es, v)
  }

  ghost predicate IsResult(es: Commits, isMatch: Id -> bool, visits: seq<Visit>, x: Id) {
    && visits != [] && (forall f :: f in Last(visits).current ==> f < |es|)
    && NewestAmong(es, Matching(Last(visits).current, isMatch), x)
  }

  /** Whatever matches, and however ties are broken: no matching commit that is reached is newer than the result. */
  ghost predicate AlwaysFindsNewest(es: Commits, a: Id) {
    forall isMatch: Id -> bool, visits: seq<Visit>, x: Id, y: Id ::
      Search(es, isMatch, a, visits) && IsResult(es, isMatch, visits, x) ==> !NewerMatch(es, isMatch, a, x, y)
  }

  ghost predicate NewerMatch(es: Commits, isMatch: Id -> bool, a: Id, x: Id, y: Id) {
    x < |es| && y < |es| && Reaches(es, a, y) && isMatch(y) && Time(es, y) > Time(es, x)
  }

  ghost predicate IsChild(es: Commits, a: Id, child: Id, parent: Id) {
    child < |es| && Reaches(es, a, child) && parent in Parents(es, child)
  }

  /** A child of `y` comes up before `c` does, or is `c` itself. */
  ghost predicate UpBy(es: Commits, a: Id, y: Id, c: Id)
    requires c < |es|
  {
    exists d :: IsChild(es, a, d, y) && (d == c || Time(es, c) < Time(es, d))
  }

  /** Of any two proper ancestors the newer one comes up no later: it has a newer child, or the same child. */
  ghost predicate ComeUpInOrder(es: Commits, a: Id) {
    forall x: Id, y: Id, c: Id ::
      IsChild(es, a, c, x) && x < |es| && y < |es| && Reaches(es, a, y) && y != a && Time(es, x) < Time(es, y)
      ==> UpBy(es, a, y, c)
  }

  // ---- Commits are followed from the newest to the oldest

  function Followed(v: Visit): set<Id> {
    v.seen - v.current
  }

  lemma {:induction false} ChainGetsOlder(es: Commits, c: seq<Id>)
    requires ChildrenNewer(es) && IsChain(es, c)
    ensures |c| > 1 ==> Time(es, c[|c| - 1]) < Time(es, c[0])
  {
    if |c| > 1 {
      assert IsChain(es, c[1..]);
      assert c[1] in Parents(es, c[0]);
      ChainGetsOlder(es, c[1..]);
    }
  }

  lemma ReachedIsOlder(es: Commits, a: Id, y: Id)
    requires ChildrenNewer(es) && Reaches(es, a, y)
    ensures a < |es| && y < |es| && (y == a || Time(es, y) < Time(es, a))
  {
    var c :| ChainFromTo(es, c, a, y);
    ChainGetsOlder(es, c);
  }

  /** What was not followed is not newer than anything that was. */
  ghost predicate NewestFirst(es: Commits, a: Id, v: Visit) {
    forall p: Id, w: Id :: p in Followed(v) && p < |es| && w < |es| && Reaches(es, a, w) && w !in Followed(v)
      ==> Time(es, w) <= Time(es, p)
  }

  /** What was seen is the start or a parent of something followed. */
  ghost predicate SeenAsParents(es: Commits, a: Id, v: Visit) {
    forall s :: s in v.seen && s != a ==> exists p :: p in Followed(v) && p < |es| && s in Parents(es, p)
  }

  /** Something not followed lies behind a current commit. */
  lemma Behind(es: Commits, isMatch: Id -> bool, a: Id, v: Visit, w: Id) returns (f: Id)
    requires SearchInv(es, isMatch, a, v.seen, v.current) && Reaches(es, a, w) && w !in Followed(v)
    ensures f in v.current && Reaches(es, f, w)
  {
    var c :| ChainFromTo(es, c, a, w);
    SearchCovers(es, isMatch, a, v.seen, v.current, c);
    f :| f in v.current && Reaches(es, f, w);
  }

  lemma StepKeepsOrder(es: Commits, isMatch: Id -> bool, a: Id, v: Visit, w: Visit, x: Id)
    requires ChildrenNewer(es) && SearchInv(es, isMatch, a, v.seen, v.current)
    requires SearchStep(es, isMatch, v, w) && FollowsTo(es, v, w, x)
    requires NewestFirst(es, a, v)
    ensures Followed(w) == Followed(v) + {x} && NewestFirst(es, a, w)
  {
    assert x in v.seen;
    assert Followed(w) == Followed(v) + {x};
    forall p: Id, u: Id | p in Followed(w) && p < |es| && u < |es| && Reaches(es, a, u) && u !in Followed(w)
      ensures Time(es, u) <= Time(es, p)
    {
      if p !in Followed(v) {
        var f := Behind(es, isMatch, a, v, u);
        ReachedIsOlder(es, f, u);
      }
    }
  }

  lemma StepKeepsSeen(es: Commits, isMatch: Id -> bool, a: Id, v: Visit, w: Visit, x: Id)
    requires SearchStep(es, isMatch, v, w) && FollowsTo(es, v, w, x)
    requires Followed(w) == Followed(v) + {x} && SeenAsParents(es, a, v)
    ensures SeenAsParents(es, a, w)
  {
    forall s | s in w.seen && s != a
      ensures exists p :: p in Followed(w) && p < |es| && s in Parents(es, p)
    {
      if s in v.seen {
        var p :| p in Followed(v) && p < |es| && s in Parents(es, p);
        assert p in Followed(w);
      } else {
        assert x in Followed(w) && s in Parents(es, x);
      }
    }
  }

  /** The state of a search, and for a later one the step that led to it. */
  lemma {:induction false} SearchOrder(es: Commits, isMatch: Id -> bool, a: Id, visits: seq<Visit>)
    requires ParentsSmaller(es) && ChildrenNewer(es) && a < |es| && Search(es, isMatch, a, visits)
    ensures SearchInv(es, isMatch, a, Last(visits).seen, Last(visits).current)
    ensures NewestFirst(es, a, Last(visits)) && SeenAsParents(es, a, Last(visits))
  {
    SearchKeepsInv(es, isMatch, a, visits);
    if |visits| > 1 {
      var front := visits[..|visits| - 1];
      var v, w := Last(front), Last(visits);
      SearchOrder(es, isMatch, a, front);
      assert SearchStep(es, isMatch, v, w);
      var x :| FollowsTo(es, v, w, x);
      StepKeepsOrder(es, isMatch, a, v, w, x);
      StepKeepsSeen(es, isMatch, a, v, w, x);
    }
  }

  /** What was seen before the last step does not match; what it has added are parents of what it followed. */
  lemma LastStep(es: Commits, isMatch: Id -> bool, a: Id, visits: seq<Visit>) returns (x: Id)
    requires ParentsSmaller(es) && ChildrenNewer(es) && a < |es| && Search(es, isMatch, a, visits) && |visits| > 1
    ensures x in Followed(Last(visits)) && x < |es| && Reaches(es, a, x)
    ensures forall s :: s in Last(visits).seen && isMatch(s) ==>
      && s in Parents(es, x)
      && forall p :: p in Followed(Last(visits)) && p < |es| && s in Parents(es, p) ==> p == x
  {
    var front := visits[..|visits| - 1];
    var v, w := Last(front), Last(visits);
    SearchOrder(es, isMatch, a, front);
    assert SearchStep(es, isMatch, v, w);
    x :| FollowsTo(es, v, w, x);
    StepKeepsOrder(es, isMatch, a, v, w, x);
    SeenIsReached(es, isMatch, a, v, x);
    forall s | s in w.seen && isMatch(s)
      ensures s in Parents(es, x) && forall p :: p in Followed(w) && p < |es| && s in Parents(es, p) ==> p == x
    {
      assert s !in v.seen;
    }
  }

  lemma SeenIsReached(es: Commits, isMatch: Id -> bool, a: Id, v: Visit, x: Id)
    requires SearchInv(es, isMatch, a, v.seen, v.current) && x in v.seen
    ensures x < |es| && Reaches(es, a, x)
  {
    var c :| UnmatchedChain(es, isMatch, c, a, x);
    assert ChainFromTo(es, c, a, x);
  }

  // ---- The condition is sufficient

  lemma InOrderFindsNewest(es: Commits, a: Id, isMatch: Id -> bool, visits: seq<Visit>, z: Id, y: Id)
    requires ParentsSmaller(es) && ChildrenNewer(es) && a < |es| && ComeUpInOrder(es, a)
    requires Search(es, isMatch, a, visits) && IsResult(es, isMatch, visits, z)
    requires y < |es| && Reaches(es, a, y) && isMatch(y)
    ensures z < |es| && Time(es, y) <= Time(es, z)
  {
    var w := Last(visits);
    assert z in w.current;
    ReachedIsOlder(es, a, y);
    if |visits| > 1 && Time(es, z) < Time(es, y) {
      SearchOrder(es, isMatch, a, visits);
      var x := LastStep(es, isMatch, a, visits);
      assert z in Parents(es, x) && IsChild(es, a, x, z);
      SeenMatchIsCurrent(es, isMatch, a, w, y);
      assert y !in w.seen;
      UnseenIsNotUp(es, isMatch, a, w, y, x);
    }
  }

  /** While a commit was not seen, none of its children came up by a commit that was followed. */
  lemma UnseenIsNotUp(es: Commits, isMatch: Id -> bool, a: Id, w: Visit, y: Id, x: Id)
    requires SearchInv(es, isMatch, a, w.seen, w.current) && NewestFirst(es, a, w)
    requires y !in w.seen && x in Followed(w) && x < |es|
    ensures !UpBy(es, a, y, x)
  {
    forall d | IsChild(es, a, d, y)
      ensures d != x && Time(es, d) <= Time(es, x)
    {
      assert d !in Followed(w);
    }
  }

  lemma SeenMatchIsCurrent(es: Commits, isMatch: Id -> bool, a: Id, w: Visit, y: Id)
    requires SearchInv(es, isMatch, a, w.seen, w.current) && isMatch(y)
    ensures y in w.seen ==> y in Matching(w.current, isMatch)
  {
  }

  // ---- The condition is necessary

  function Either(x: Id, y: Id): Id -> bool {
    id => id == x || id == y
  }

  /** Until it was followed itself, only commits newer than `c` were. */
  ghost predicate OnlyNewer(es: Commits, v: Visit, c: Id)
    requires c < |es|
  {
    c !in Followed(v) ==> forall p :: p in Followed(v) && p < |es| ==> Time(es, p) > Time(es, c)
  }

  /** One of the newest current commits, `c` if it is one. */
  lemma Choose(es: Commits, current: set<Id>, c: Id) returns (x: Id)
    requires current != {} && forall v :: v in current ==> v < |es|
    ensures NewestAmong(es, current, x)
    ensures c in current && NewestAmong(es, current, c) ==> x == c
  {
    NewestExists(es, current);
    x :| NewestAmong(es, current, x);
    if c in current && NewestAmong(es, current, c) {
      x := c;
    }
  }

  function After(es: Commits, v: Visit, x: Id): Visit
    requires x < |es|
  {
    var parents := set p | p in Parents(es, x);
    Visit(v.seen + parents, v.current - {x} + (parents - v.seen))
  }

  lemma ChosenKeepsOnlyNewer(es: Commits, isMatch: Id -> bool, a: Id, v: Visit, x: Id, c: Id)
    requires ChildrenNewer(es) && SearchInv(es, isMatch, a, v.seen, v.current)
    requires NewestAmong(es, v.current, x) && (c in v.current && NewestAmong(es, v.current, c) ==> x == c)
    requires c < |es| && Reaches(es, a, c) && OnlyNewer(es, v, c)
    requires Followed(After(es, v, x)) == Followed(v) + {x}
    ensures OnlyNewer(es, After(es, v, x), c)
  {
    if c !in Followed(v) && c != x {
      var f := Behind(es, isMatch, a, v, c);
      ReachedIsOlder(es, f, c);
    }
  }

  /** A search that prefers to follow `c` goes on until something matches. */
  lemma {:induction false} SearchOn(es: Commits, isMatch: Id -> bool, a: Id, visits: seq<Visit>, c: Id, m: Id)
    returns (all: seq<Visit>)
    requires ParentsSmaller(es) && ChildrenNewer(es) && a < |es| && Search(es, isMatch, a, visits)
    requires c < |es| && Reaches(es, a, c) && OnlyNewer(es, Last(visits), c)
    requires m < |es| && Reaches(es, a, m) && isMatch(m)
    ensures Search(es, isMatch, a, all) && OnlyNewer(es, Last(all), c) && Matching(Last(all).current, isMatch) != {}
    decreases IdsBelow(|es|) - Followed(Last(visits))
  {
    var v := Last(visits);
    SearchOrder(es, isMatch, a, visits);
    if Matching(v.current, isMatch) != {} {
      all := visits;
    } else {
      assert forall x :: x in v.current ==> x !in Matching(v.current, isMatch);
      var f := Behind(es, isMatch, a, v, m);
      var x := Choose(es, v.current, c);
      var w := After(es, v, x);
      assert w.seen == v.seen + Elements(Parents(es, x));
      assert FollowsTo(es, v, w, x);
      assert SearchStep(es, isMatch, v, w);
      StepKeepsOrder(es, isMatch, a, v, w, x);
      ChosenKeepsOnlyNewer(es, isMatch, a, v, x, c);
      SearchSnoc(es, isMatch, a, visits, w);
      assert x in IdsBelow(|es|) - Followed(v);
      all := SearchOn(es, isMatch, a, visits + [w], c, m);
    }
  }

  /** With only `x` and `y` matching, such a search ends with `x` when no child of the newer `y` is up by `c`. */
  lemma OutOfOrderMissesNewest(es: Commits, a: Id, x: Id, y: Id, c: Id) returns (visits: seq<Visit>)
    requires ParentsSmaller(es) && ChildrenNewer(es) && a < |es|
    requires IsChild(es, a, c, x) && x < |es| && y < |es| && Reaches(es, a, y) && y != a
    requires Time(es, x) < Time(es, y) && !UpBy(es, a, y, c)
    ensures Search(es, Either(x, y), a, visits) && IsResult(es, Either(x, y), visits, x)
  {
    var isMatch := Either(x, y);
    ReachesChild(es, a, c, x);
    visits := SearchOn(es, isMatch, a, [Visit({a}, {a})], c, x);
    SearchOrder(es, isMatch, a, visits);
    ReachedIsOlder(es, a, y);
    NewerIsMissed(es, a, visits, x, y, c);
    OnlyOneMatches(es, Last(visits), x, y);
  }

  lemma NewerIsMissed(es: Commits, a: Id, visits: seq<Visit>, x: Id, y: Id, c: Id)
    requires ParentsSmaller(es) && ChildrenNewer(es) && a < |es| && Search(es, Either(x, y), a, visits)
    requires c < |es| && IsChild(es, a, c, x) && OnlyNewer(es, Last(visits), c) && !UpBy(es, a, y, c) && y != a
    ensures y !in Last(visits).seen
  {
    if |visits| > 1 {
      SearchOrder(es, Either(x, y), a, visits);
      var p := LastStep(es, Either(x, y), a, visits);
      NewerIsNotSeen(es, Either(x, y), a, Last(visits), x, y, c, p);
    }
  }

  lemma OnlyOneMatches(es: Commits, w: Visit, x: Id, y: Id)
    requires w.current <= w.seen && y !in w.seen && Matching(w.current, Either(x, y)) != {}
    ensures Matching(w.current, Either(x, y)) == {x}
  {
    var m :| m in Matching(w.current, Either(x, y));
    assert m == x;
  }

  lemma ReachesChild(es: Commits, a: Id, c: Id, x: Id)
    requires ParentsSmaller(es) && IsChild(es, a, c, x)
    ensures x < |es| && Reaches(es, a, x)
  {
    ReachesParent(es, a, c, x);
  }

  /** The search has not come to `y` if every match was first seen from `p`. */
  lemma NewerIsNotSeen(es: Commits, isMatch: Id -> bool, a: Id, w: Visit, x: Id, y: Id, c: Id, p: Id)
    requires SearchInv(es, isMatch, a, w.seen, w.current)
    requires c < |es| && IsChild(es, a, c, x) && OnlyNewer(es, w, c) && !UpBy(es, a, y, c)
    requires isMatch(x) && isMatch(y)
    requires p in Followed(w) && p < |es| && Reaches(es, a, p)
    requires forall s :: s in w.seen && isMatch(s) ==>
      s in Parents(es, p) && forall q :: q in Followed(w) && q < |es| && s in Parents(es, q) ==> q == p
    ensures y !in w.seen
  {
    assert y in w.seen ==> IsChild(es, a, p, y);
    if c in Followed(w) {
      assert x in w.seen;
      assert c == p;
    }
  }

  // ---- The theorem

  /**
   For commits that are newer than their parents, the search finds the newest match, whatever matches and
   however ties are broken, if and only if of any two proper ancestors the newer one comes up no later.
   */
  lemma FindsNewestExactly(es: Commits, a: Id)
    requires ParentsSmaller(es) && ChildrenNewer(es) && a < |es|
    ensures AlwaysFindsNewest(es, a) <==> ComeUpInOrder(es, a)
  {
    if ComeUpInOrder(es, a) {
      forall isMatch: Id -> bool, visits: seq<Visit>, x: Id, y: Id |
        Search(es, isMatch, a, visits) && IsResult(es, isMatch, visits, x)
        ensures !NewerMatch(es, isMatch, a, x, y)
      {
        if y < |es| && Reaches(es, a, y) && isMatch(y) {
          InOrderFindsNewest(es, a, isMatch, visits, x, y);
        }
      }
    } else {
      var x: Id, y: Id, c: Id :| IsChild(es, a, c, x) && x < |es| && y < |es| && Reaches(es, a, y) && y != a
        && Time(es, x) < Time(es, y) && !UpBy(es, a, y, c);
      var visits := OutOfOrderMissesNewest(es, a, x, y, c);
      assert NewerMatch(es, Either(x, y), a, x, y);
    }
  }
}
