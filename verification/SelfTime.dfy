/**
 From inclusive to self times: the value of a node, which includes those of its children, becomes what
 remains of it after subtracting the children.
 */
module SelfTime {
  import opened Wrappers
  import opened Tree

  /** The children's values, and for children without a value those of their children. */
  function ChildrenSum(f: Forest<nat>): nat {
    match f
    case Nil => 0
    case Cons(_, child, rest) => Inclusive(child) + ChildrenSum(rest)
  }

  function Inclusive(t: Tree<nat>): nat {
    if t.value.Some? then t.value.value else ChildrenSum(t.children)
  }

  /** A value below the sum of the children becomes 0. */
  function FixTree(t: Tree<nat>): Tree<nat> {
    var value := if t.value.None? then None
                 else if t.value.value >= ChildrenSum(t.children) then Some(t.value.value - ChildrenSum(t.children))
                 else Some(0);
    Tree(value, FixForest(t.children))
  }

  function FixForest(f: Forest<nat>): Forest<nat> {
    match f
    case Nil => Nil
    case Cons(k, child, rest) => Cons(k, FixTree(child), FixForest(rest))
  }

  /** The sum of all values in the tree. */
  function Total(t: Tree<nat>): nat {
    (if t.value.Some? then t.value.value else 0) + TotalIn(t.children)
  }

  function TotalIn(f: Forest<nat>): nat {
    match f
    case Nil => 0
    case Cons(_, child, rest) => Total(child) + TotalIn(rest)
  }

  /** By how much nodes are below the sum of their children, all together. */
  function Excess(t: Tree<nat>): nat {
    (if t.value.Some? && t.value.value < ChildrenSum(t.children) then ChildrenSum(t.children) - t.value.value else 0)
    + ExcessIn(t.children)
  }

  function ExcessIn(f: Forest<nat>): nat {
    match f
    case Nil => 0
    case Cons(_, child, rest) => Excess(child) + ExcessIn(rest)
  }

  /** No node with a value is below the sum of its children. */
  predicate Consistent(t: Tree<nat>) {
    (t.value.Some? ==> t.value.value >= ChildrenSum(t.children)) && ConsistentIn(t.children)
  }

  predicate ConsistentIn(f: Forest<nat>) {
    match f
    case Nil => true
    case Cons(_, child, rest) => Consistent(child) && ConsistentIn(rest)
  }

  /** The self times sum up to the inclusive time of the root, plus what was cut off at zero. */
  lemma {:induction false} SelfTimesSumUp(t: Tree<nat>)
    ensures Total(FixTree(t)) == Inclusive(t) + Excess(t)
    decreases t, 1
  {
    SelfTimesSumUpIn(t.children);
  }

  lemma {:induction false} SelfTimesSumUpIn(f: Forest<nat>)
    ensures TotalIn(FixForest(f)) == ChildrenSum(f) + ExcessIn(f)
    decreases f, 0
  {
    match f
    case Nil =>
    case Cons(_, child, rest) =>
      SelfTimesSumUp(child);
      SelfTimesSumUpIn(rest);
  }

  lemma {:induction false} ConsistentHasNoExcess(t: Tree<nat>)
    ensures Consistent(t) <==> Excess(t) == 0
    decreases t, 1
  {
    ConsistentHasNoExcessIn(t.children);
  }

  lemma {:induction false} ConsistentHasNoExcessIn(f: Forest<nat>)
    ensures ConsistentIn(f) <==> ExcessIn(f) == 0
    decreases f, 0
  {
    match f
    case Nil =>
    case Cons(_, child, rest) =>
      ConsistentHasNoExcess(child);
      ConsistentHasNoExcessIn(rest);
  }

  /** Time is conserved exactly for consistent trees, and never lost. */
  lemma TimeIsConservedExactly(t: Tree<nat>)
    ensures Total(FixTree(t)) >= Inclusive(t)
    ensures Total(FixTree(t)) == Inclusive(t) <==> Consistent(t)
  {
    SelfTimesSumUp(t);
    ConsistentHasNoExcess(t);
  }

  /** The subtree at a path. */
  function Subtree(t: Tree<nat>, path: Path): Option<Tree<nat>> {
    if path == [] then Some(t) else SubtreeIn(t.children, path[0], path[1..])
  }

  function SubtreeIn(f: Forest<nat>, key: string, path: Path): Option<Tree<nat>> {
    match f
    case Nil => None
    case Cons(k, child, rest) => if k == key then Subtree(child, path) else SubtreeIn(rest, key, path)
  }

  /** Every node is fixed by itself, with the original values of its children. */
  lemma {:induction false} FixActsOnEverySubtree(t: Tree<nat>, path: Path)
    ensures Subtree(FixTree(t), path)
         == (if Subtree(t, path).Some? then Some(FixTree(Subtree(t, path).value)) else None)
    decreases t, 1
  {
    if path != [] {
      FixActsOnEverySubtreeIn(t.children, path[0], path[1..]);
    }
  }

  lemma {:induction false} FixActsOnEverySubtreeIn(f: Forest<nat>, key: string, path: Path)
    ensures SubtreeIn(FixForest(f), key, path)
         == (if SubtreeIn(f, key, path).Some? then Some(FixTree(SubtreeIn(f, key, path).value)) else None)
    decreases f, 0
  {
    match f
    case Nil =>
    case Cons(k, child, rest) =>
      FixActsOnEverySubtree(child, path);
      FixActsOnEverySubtreeIn(rest, key, path);
  }

  lemma {:induction false} GetIsOfSubtree(t: Tree<nat>, path: Path)
    ensures Get<nat>(t, path) == if Subtree(t, path).Some? then Subtree(t, path).value.value else None
    decreases t, 1
  {
    if path != [] {
      GetInIsOfSubtree(t.children, path[0], path[1..]);
    }
  }

  lemma {:induction false} GetInIsOfSubtree(f: Forest<nat>, key: string, path: Path)
    ensures GetIn<nat>(f, key, path)
         == if SubtreeIn(f, key, path).Some? then SubtreeIn(f, key, path).value.value else None
    decreases f, 0
  {
    match f
    case Nil =>
    case Cons(k, child, rest) =>
      GetIsOfSubtree(child, path);
      GetInIsOfSubtree(rest, key, path);
  }

  /**
   The same paths have values as before; and each value is what is left of the old one after taking away
   the original sum of the children, or 0 if that is more.
   */
  lemma FixedValueAtPath(t: Tree<nat>, path: Path)
    ensures Get<nat>(FixTree(t), path).Some? <==> Get<nat>(t, path).Some?
    ensures Get<nat>(t, path).Some? ==>
      && Subtree(t, path).Some?
      && var value, sum := Get<nat>(t, path).value, ChildrenSum(Subtree(t, path).value.children);
         && (value >= sum ==> Get<nat>(FixTree(t), path) == Some(value - sum))
         && (value < sum ==> Get<nat>(FixTree(t), path) == Some(0))
  {
    GetIsOfSubtree(t, path);
    GetIsOfSubtree(FixTree(t), path);
    FixActsOnEverySubtree(t, path);
  }

  /** The paths of a list of pairs. */
  function PathsOf(pairs: KeyVals<nat>): (r: seq<Path>)
    ensures |r| == |pairs| && forall i :: 0 <= i < |r| ==> r[i] == pairs[i].0
  {
    seq(|pairs|, i requires 0 <= i < |pairs| => pairs[i].0)
  }

  lemma PathsAppend(a: KeyVals<nat>, b: KeyVals<nat>)
    ensures PathsOf(a + b) == PathsOf(a) + PathsOf(b)
  {
  }

  /** The listing has the same rows, in the same order, before and after. */
  lemma {:induction false} SamePathsAreListed(t: Tree<nat>, at: Path)
    ensures PathsOf(PairsOf(FixTree(t), at)) == PathsOf(PairsOf(t, at))
    decreases t, 1
  {
    SamePathsAreListedIn(t.children, at);
    var u := FixTree(t);
    if t.value.Some? {
      PathsAppend([(at, t.value.value)], PairsIn(t.children, at));
      PathsAppend([(at, u.value.value)], PairsIn(u.children, at));
    } else {
      assert PairsOf(t, at) == PairsIn(t.children, at) && PairsOf(u, at) == PairsIn(u.children, at);
    }
  }

  lemma {:induction false} SamePathsAreListedIn(f: Forest<nat>, at: Path)
    ensures PathsOf(PairsIn(FixForest(f), at)) == PathsOf(PairsIn(f, at))
    decreases f, 0
  {
    match f
    case Nil =>
    case Cons(k, child, rest) =>
      SamePathsAreListed(child, at + [k]);
      SamePathsAreListedIn(rest, at);
      PathsAppend(PairsOf(child, at + [k]), PairsIn(rest, at));
      PathsAppend(PairsOf(FixTree(child), at + [k]), PairsIn(FixForest(rest), at));
  }

  /** In a consistent tree a node keeps its self time: what it has and its children's times make up its own. */
  lemma {:induction false} EverySubtreeConserves(t: Tree<nat>, path: Path)
    requires Consistent(t) && Subtree(t, path).Some?
    ensures Subtree(FixTree(t), path).Some?
    ensures Total(Subtree(FixTree(t), path).value) == Inclusive(Subtree(t, path).value)
    decreases t, 1
  {
    FixActsOnEverySubtree(t, path);
    SubtreeIsConsistent(t, path);
    TimeIsConservedExactly(Subtree(t, path).value);
  }

  lemma {:induction false} SubtreeIsConsistent(t: Tree<nat>, path: Path)
    requires Consistent(t) && Subtree(t, path).Some?
    ensures Consistent(Subtree(t, path).value)
    decreases t, 1
  {
    if path != [] {
      SubtreeInIsConsistent(t.children, path[0], path[1..]);
    }
  }

  lemma {:induction false} SubtreeInIsConsistent(f: Forest<nat>, key: string, path: Path)
    requires ConsistentIn(f) && SubtreeIn(f, key, path).Some?
    ensures Consistent(SubtreeIn(f, key, path).value)
    decreases f, 0
  {
    if f.key == key {
      SubtreeIsConsistent(f.child, path);
    } else {
      SubtreeInIsConsistent(f.rest, key, path);
    }
  }

  // ---- 64-bit sums

  const U64 := 0x1_0000_0000_0000_0000

  /** The sum as it is computed, from left to right; none stands for the panic of an overflow. */
  function SumU64(f: Forest<nat>, sum: nat): Option<nat>
    decreases f, 0
  {
    match f
    case Nil => Some(sum)
    case Cons(_, child, rest) =>
      var value := InclusiveU64(child);
      if value.None? || sum + value.value >= U64 then None else SumU64(rest, sum + value.value)
  }

  function InclusiveU64(t: Tree<nat>): Option<nat>
    decreases t, 1
  {
    if t.value.Some? then t.value else SumU64(t.children, 0)
  }

  function FixTreeU64(t: Tree<nat>): Option<Tree<nat>>
    decreases t, 1
  {
    var sum := if t.value.Some? then SumU64(t.children, 0) else Some(0);
    var children := FixForestU64(t.children);
    if sum.None? || children.None? then None
    else
      var value := if t.value.None? then None
                   else if t.value.value >= sum.value then Some(t.value.value - sum.value)
                   else Some(0);
      Some(Tree(value, children.value))
  }

  function FixForestU64(f: Forest<nat>): Option<Forest<nat>>
    decreases f, 0
  {
    match f
    case Nil => Some(Nil)
    case Cons(k, child, rest) =>
      var c, r := FixTreeU64(child), FixForestU64(rest);
      if c.None? || r.None? then None else Some(Cons(k, c.value, r.value))
  }

  /** The values themselves fit. */
  predicate AllU64(t: Tree<nat>) {
    (t.value.Some? ==> t.value.value < U64) && AllU64In(t.children)
  }

  predicate AllU64In(f: Forest<nat>) {
    match f
    case Nil => true
    case Cons(_, child, rest) => AllU64(child) && AllU64In(rest)
  }

  /** For every node with a value the sum of its children fits. */
  predicate SumsFit(t: Tree<nat>) {
    (t.value.Some? ==> ChildrenSum(t.children) < U64) && SumsFitIn(t.children)
  }

  predicate SumsFitIn(f: Forest<nat>) {
    match f
    case Nil => true
    case Cons(_, child, rest) => SumsFit(child) && SumsFitIn(rest)
  }

  lemma {:induction false} SumExactly(f: Forest<nat>, sum: nat)
    requires AllU64In(f) && sum < U64
    ensures SumU64(f, sum) == if sum + ChildrenSum(f) < U64 then Some(sum + ChildrenSum(f)) else None
    decreases f, 0
  {
    match f
    case Nil =>
    case Cons(_, child, rest) =>
      InclusiveExactly(child);
      if sum + Inclusive(child) < U64 {
        SumExactly(rest, sum + Inclusive(child));
      }
  }

  lemma {:induction false} InclusiveExactly(t: Tree<nat>)
    requires AllU64(t)
    ensures InclusiveU64(t) == if Inclusive(t) < U64 then Some(Inclusive(t)) else None
    decreases t, 1
  {
    if t.value.None? {
      SumExactly(t.children, 0);
    }
  }

  /**
   With 64-bit sums there is a panic exactly if the children of a node with a value sum up to more; else
   nothing differs.
   */
  lemma {:induction false} FixPanicsExactly(t: Tree<nat>)
    requires AllU64(t)
    ensures FixTreeU64(t) == if SumsFit(t) then Some(FixTree(t)) else None
    decreases t, 1
  {
    SumExactly(t.children, 0);
    FixForestPanicsExactly(t.children);
  }

  lemma {:induction false} FixForestPanicsExactly(f: Forest<nat>)
    requires AllU64In(f)
    ensures FixForestU64(f) == if SumsFitIn(f) then Some(FixForest(f)) else None
    decreases f, 0
  {
    match f
    case Nil =>
    case Cons(_, child, rest) =>
      FixPanicsExactly(child);
      FixForestPanicsExactly(rest);
  }

  /** In particular never for a consistent tree. */
  lemma {:induction false} ConsistentNeverPanics(t: Tree<nat>)
    requires AllU64(t) && Consistent(t)
    ensures FixTreeU64(t) == Some(FixTree(t))
  {
    ConsistentSumsFit(t);
    FixPanicsExactly(t);
  }

  lemma {:induction false} ConsistentSumsFit(t: Tree<nat>)
    requires AllU64(t) && Consistent(t)
    ensures SumsFit(t)
    decreases t, 1
  {
    ConsistentSumsFitIn(t.children);
  }

  lemma {:induction false} ConsistentSumsFitIn(f: Forest<nat>)
    requires AllU64In(f) && ConsistentIn(f)
    ensures SumsFitIn(f)
    decreases f, 0
  {
    match f
    case Nil =>
    case Cons(_, child, rest) =>
      ConsistentSumsFit(child);
      ConsistentSumsFitIn(rest);
  }
}
