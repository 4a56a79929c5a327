/** Filter expressions of queries, and their optimization. */
module Query {
  import opened Sequences

  datatype FilterExpression =
    | Or(children: seq<FilterExpression>)
    | And(children: seq<FilterExpression>)
    | Not(child: FilterExpression)
    | NOf(children: seq<FilterExpression>, matchExactly: bool, numberOfMatchers: nat)
    | Leaf(kind: LeafKind)

  /** The conditions that have no sub-expressions. */
  datatype LeafKind =
    | True
    | DateBetween(from: string, to: string, column: string)
    | Lineage(column: string, includeSublineages: bool, value: string)
    | StringEquals(column: string, value: string)
    | NucleotideEquals(symbol: string, position: nat)
    | HasNucleotideMutation(position: nat)
    | HasAminoAcidMutation(position: nat, sequenceName: string)
    | FloatBetween(column: string, lower: real, upper: real)
    | AminoAcidInsertionContains(position: nat, sequenceName: string, value: string)
    | AminoAcidEquals(position: nat, sequenceName: string, symbol: string)

  type Expr = FilterExpression

  // ---- Optimization

  function Optimized(e: Expr): Expr {
    match e
    case Or(children) =>
      if |children| == 1 then Optimized(children[0]) else Or(Spliced(children, true))
    case And(children) =>
      if |children| == 1 then Optimized(children[0]) else And(Spliced(children, false))
    case Not(child) =>
      var c := Optimized(child);
      if c.Not? then c.child else Not(c)
    case NOf(children, exactly, n) => NOf(OptimizedAll(children), exactly, n)
    case Leaf(_) => e
  }

  /** The children that a child becomes: its own ones if it is an `Or` in an `Or`, or an `And` in an `And`. */
  function Parts(e: Expr, inOr: bool): seq<Expr> {
    if (inOr && e.Or?) || (!inOr && e.And?) then e.children else [e]
  }

  function Spliced(es: seq<Expr>, inOr: bool): seq<Expr> {
    if es == [] then [] else Parts(Optimized(es[0]), inOr) + Spliced(es[1..], inOr)
  }

  function OptimizedAll(es: seq<Expr>): (r: seq<Expr>)
    ensures |r| == |es|
  {
    if es == [] then [] else [Optimized(es[0])] + OptimizedAll(es[1..])
  }

  /** The optimizer, with its loops. */
  method Optimize(e: Expr) returns (r: Expr)
    ensures r == Optimized(e)
    decreases e
  {
    match e
    case Or(children) =>
      if |children| == 1 {
        r := Optimize(children[0]);
      } else {
        var newChildren := OptimizeChildren(children, true);
        r := Or(newChildren);
      }
    case And(children) =>
      if |children| == 1 {
        r := Optimize(children[0]);
      } else {
        var newChildren := OptimizeChildren(children, false);
        r := And(newChildren);
      }
    case Not(child) =>
      var c := Optimize(child);
      r := if c.Not? then c.child else Not(c);
    case NOf(children, exactly, n) =>
      var newChildren: seq<Expr> := [];
      for i := 0 to |children|
        invariant newChildren + OptimizedAll(children[i..]) == OptimizedAll(children)
      {
        var c := Optimize(children[i]);
        assert children[i..][1..] == children[i + 1..];
        newChildren := newChildren + [c];
      }
      r := NOf(newChildren, exactly, n);
    case Leaf(_) =>
      r := e;
  }

  method OptimizeChildren(children: seq<Expr>, inOr: bool) returns (newChildren: seq<Expr>)
    ensures newChildren == Spliced(children, inOr)
    decreases children
  {
    newChildren := [];
    for i := 0 to |children|
      invariant Spliced(children, inOr) == newChildren + Spliced(children[i..], inOr)
    {
      var child := Optimize(children[i]);
      SplicedFrom(children, inOr, i, newChildren);
      newChildren := AddChild(newChildren, child, inOr);
    }
    assert newChildren + [] == newChildren;
  }

  lemma SplicedFrom(es: seq<Expr>, inOr: bool, i: nat, before: seq<Expr>)
    requires i < |es|
    ensures before + Spliced(es[i..], inOr) == (before + Parts(Optimized(es[i]), inOr)) + Spliced(es[i + 1..], inOr)
  {
    assert es[i..][1..] == es[i + 1..];
    Associate(before, Parts(Optimized(es[i]), inOr), Spliced(es[i + 1..], inOr));
  }

  /** Adds an optimized child, or its children. */
  method AddChild(before: seq<Expr>, child: Expr, inOr: bool) returns (newChildren: seq<Expr>)
    ensures newChildren == before + Parts(child, inOr)
  {
    newChildren := before;
    if (inOr && child.Or?) || (!inOr && child.And?) {
      for k := 0 to |child.children|
        invariant newChildren == before + child.children[..k]
      {
        newChildren := newChildren + [child.children[k]];
      }
      assert child.children[..|child.children|] == child.children;
    } else {
      newChildren := newChildren + [child];
    }
  }

  // ---- Meaning

  /** Which of the leaf conditions hold. */
  type Valuation = LeafKind -> bool

  predicate Holds(e: Expr, v: Valuation) {
    match e
    case Or(children) => CountHolding(children, v) > 0
    case And(children) => CountHolding(children, v) == |children|
    case Not(child) => !Holds(child, v)
    case NOf(children, exactly, n) =>
      var k := CountHolding(children, v);
      if exactly then k == n else k >= n
    case Leaf(kind) => kind.True? || v(kind)
  }

  function CountHolding(es: seq<Expr>, v: Valuation): (k: nat)
    ensures k <= |es|
  {
    if es == [] then 0 else (if Holds(es[0], v) then 1 else 0) + CountHolding(es[1..], v)
  }

  lemma {:induction false} CountAppend(a: seq<Expr>, b: seq<Expr>, v: Valuation)
    ensures CountHolding(a + b, v) == CountHolding(a, v) + CountHolding(b, v)
  {
    if a == [] {
      assert a + b == b;
    } else {
      assert (a + b)[1..] == a[1..] + b;
      CountAppend(a[1..], b, v);
    }
  }

  /** The optimized expression holds exactly when the original does, whatever the leaves mean. */
  lemma {:induction false} OptimizePreservesMeaning(e: Expr, v: Valuation)
    ensures Holds(Optimized(e), v) == Holds(e, v)
    decreases e
  {
    match e
    case Or(children) =>
      if |children| == 1 {
        OptimizePreservesMeaning(children[0], v);
        assert CountHolding(children[1..], v) == 0;
      } else {
        SplicingPreservesMeaning(children, true, v);
      }
    case And(children) =>
      if |children| == 1 {
        OptimizePreservesMeaning(children[0], v);
        assert CountHolding(children[1..], v) == 0;
      } else {
        SplicingPreservesMeaning(children, false, v);
      }
    case Not(child) => OptimizePreservesMeaning(child, v);
    case NOf(children, _, _) => OptimizeAllPreservesCount(children, v);
    case Leaf(_) =>
  }

  lemma {:induction false} SplicingPreservesMeaning(es: seq<Expr>, inOr: bool, v: Valuation)
    ensures inOr ==> (CountHolding(Spliced(es, inOr), v) > 0 <==> CountHolding(es, v) > 0)
    ensures !inOr ==> (CountHolding(Spliced(es, inOr), v) == |Spliced(es, inOr)| <==> CountHolding(es, v) == |es|)
    decreases es
  {
    if es != [] {
      OptimizePreservesMeaning(es[0], v);
      SplicingPreservesMeaning(es[1..], inOr, v);
      var parts := Parts(Optimized(es[0]), inOr);
      CountAppend(parts, Spliced(es[1..], inOr), v);
      assert parts == [Optimized(es[0])] ==> CountHolding(parts[1..], v) == 0;
    }
  }

  lemma {:induction false} OptimizeAllPreservesCount(es: seq<Expr>, v: Valuation)
    ensures CountHolding(OptimizedAll(es), v) == CountHolding(es, v)
    decreases es
  {
    if es != [] {
      OptimizePreservesMeaning(es[0], v);
      OptimizeAllPreservesCount(es[1..], v);
    }
  }

  // ---- Size

  function Size(e: Expr): nat {
    match e
    case Or(children) => 1 + SizeAll(children)
    case And(children) => 1 + SizeAll(children)
    case Not(child) => 1 + Size(child)
    case NOf(children, _, _) => 1 + SizeAll(children)
    case Leaf(_) => 1
  }

  function SizeAll(es: seq<Expr>): nat {
    if es == [] then 0 else Size(es[0]) + SizeAll(es[1..])
  }

  lemma {:induction false} SizeAppend(a: seq<Expr>, b: seq<Expr>)
    ensures SizeAll(a + b) == SizeAll(a) + SizeAll(b)
  {
    if a == [] {
      assert a + b == b;
    } else {
      assert (a + b)[1..] == a[1..] + b;
      SizeAppend(a[1..], b);
    }
  }

  lemma {:induction false} OptimizeNeverGrows(e: Expr)
    ensures Size(Optimized(e)) <= Size(e)
    decreases e
  {
    match e
    case Or(children) =>
      if |children| == 1 { OptimizeNeverGrows(children[0]); } else { SplicingNeverGrows(children, true); }
    case And(children) =>
      if |children| == 1 { OptimizeNeverGrows(children[0]); } else { SplicingNeverGrows(children, false); }
    case Not(child) => OptimizeNeverGrows(child);
    case NOf(children, _, _) => OptimizeAllNeverGrows(children);
    case Leaf(_) =>
  }

  lemma {:induction false} SplicingNeverGrows(es: seq<Expr>, inOr: bool)
    ensures SizeAll(Spliced(es, inOr)) <= SizeAll(es)
    decreases es
  {
    if es != [] {
      OptimizeNeverGrows(es[0]);
      SplicingNeverGrows(es[1..], inOr);
      SizeAppend(Parts(Optimized(es[0]), inOr), Spliced(es[1..], inOr));
    }
  }

  lemma {:induction false} OptimizeAllNeverGrows(es: seq<Expr>)
    ensures SizeAll(OptimizedAll(es)) <= SizeAll(es)
    decreases es
  {
    if es != [] {
      OptimizeNeverGrows(es[0]);
      OptimizeAllNeverGrows(es[1..]);
    }
  }

  // ---- Normal form

  /** No `Or` directly in an `Or`, no `And` directly in an `And`, no `Not` directly in a `Not`. */
  predicate Flat(e: Expr) {
    match e
    case Or(children) => AllFlat(children) && forall c :: c in children ==> !c.Or?
    case And(children) => AllFlat(children) && forall c :: c in children ==> !c.And?
    case Not(child) => Flat(child) && !child.Not?
    case NOf(children, _, _) => AllFlat(children)
    case Leaf(_) => true
  }

  predicate AllFlat(es: seq<Expr>) {
    es == [] || (Flat(es[0]) && AllFlat(es[1..]))
  }

  lemma {:induction false} AllFlatAppend(a: seq<Expr>, b: seq<Expr>)
    ensures AllFlat(a + b) <==> AllFlat(a) && AllFlat(b)
  {
    if a == [] {
      assert a + b == b;
    } else {
      assert (a + b)[1..] == a[1..] + b;
      AllFlatAppend(a[1..], b);
    }
  }

  lemma {:induction false} OptimizeFlattens(e: Expr)
    ensures Flat(Optimized(e))
    decreases e
  {
    match e
    case Or(children) =>
      if |children| == 1 { OptimizeFlattens(children[0]); } else { SplicingFlattens(children, true); }
    case And(children) =>
      if |children| == 1 { OptimizeFlattens(children[0]); } else { SplicingFlattens(children, false); }
    case Not(child) => OptimizeFlattens(child);
    case NOf(children, _, _) => OptimizeAllFlattens(children);
    case Leaf(_) =>
  }

  lemma {:induction false} SplicingFlattens(es: seq<Expr>, inOr: bool)
    ensures AllFlat(Spliced(es, inOr))
    ensures forall c :: c in Spliced(es, inOr) ==> if inOr then !c.Or? else !c.And?
    decreases es
  {
    if es != [] {
      OptimizeFlattens(es[0]);
      SplicingFlattens(es[1..], inOr);
      AllFlatAppend(Parts(Optimized(es[0]), inOr), Spliced(es[1..], inOr));
    }
  }

  lemma {:induction false} OptimizeAllFlattens(es: seq<Expr>)
    ensures AllFlat(OptimizedAll(es))
    decreases es
  {
    if es != [] {
      OptimizeFlattens(es[0]);
      OptimizeAllFlattens(es[1..]);
    }
  }

  // ---- Order

  /** The conditions from left to right. */
  function LeavesOf(e: Expr): seq<LeafKind> {
    match e
    case Or(children) => LeavesOfAll(children)
    case And(children) => LeavesOfAll(children)
    case Not(child) => LeavesOf(child)
    case NOf(children, _, _) => LeavesOfAll(children)
    case Leaf(kind) => [kind]
  }

  function LeavesOfAll(es: seq<Expr>): seq<LeafKind> {
    if es == [] then [] else LeavesOf(es[0]) + LeavesOfAll(es[1..])
  }

  lemma {:induction false} LeavesAppend(a: seq<Expr>, b: seq<Expr>)
    ensures LeavesOfAll(a + b) == LeavesOfAll(a) + LeavesOfAll(b)
  {
    if a == [] {
      assert a + b == b;
    } else {
      assert (a + b)[1..] == a[1..] + b;
      LeavesAppend(a[1..], b);
      Associate(LeavesOf(a[0]), LeavesOfAll(a[1..]), LeavesOfAll(b));
    }
  }

  lemma LeavesOfOne(e: Expr)
    ensures LeavesOfAll([e]) == LeavesOf(e)
  {
    assert [e][1..] == [] && LeavesOf(e) + [] == LeavesOf(e);
  }

  /** Optimizing neither loses, repeats nor reorders any of the conditions. */
  lemma {:induction false} OptimizeKeepsLeaves(e: Expr)
    ensures LeavesOf(Optimized(e)) == LeavesOf(e)
    decreases e
  {
    match e
    case Or(children) => OptimizeKeepsLeavesOf(children, true);
    case And(children) => OptimizeKeepsLeavesOf(children, false);
    case Not(child) => OptimizeKeepsLeaves(child);
    case NOf(children, _, _) => OptimizeAllKeepsLeaves(children);
    case Leaf(_) =>
  }

  lemma {:induction false} OptimizeKeepsLeavesOf(children: seq<Expr>, inOr: bool)
    ensures |children| == 1 ==> LeavesOf(Optimized(children[0])) == LeavesOfAll(children)
    ensures LeavesOfAll(Spliced(children, inOr)) == LeavesOfAll(children)
    decreases children
  {
    if children != [] {
      OptimizeKeepsLeaves(children[0]);
      OptimizeKeepsLeavesOf(children[1..], inOr);
      var x := Optimized(children[0]);
      LeavesAppend(Parts(x, inOr), Spliced(children[1..], inOr));
      LeavesOfOne(x);
      LeavesOfOne(children[0]);
      assert |children| == 1 ==> children == [children[0]];
    }
  }

  lemma {:induction false} OptimizeAllKeepsLeaves(es: seq<Expr>)
    ensures LeavesOfAll(OptimizedAll(es)) == LeavesOfAll(es)
    decreases es
  {
    if es != [] {
      OptimizeKeepsLeaves(es[0]);
      OptimizeAllKeepsLeaves(es[1..]);
      assert OptimizedAll(es)[1..] == OptimizedAll(es[1..]);
    }
  }

  // ---- Optimizing twice

  /** No `Or` and no `And` has exactly one child. */
  predicate SingleFree(e: Expr) {
    match e
    case Or(children) => |children| != 1 && AllSingleFree(children)
    case And(children) => |children| != 1 && AllSingleFree(children)
    case Not(child) => SingleFree(child)
    case NOf(children, _, _) => AllSingleFree(children)
    case Leaf(_) => true
  }

  predicate AllSingleFree(es: seq<Expr>) {
    es == [] || (SingleFree(es[0]) && AllSingleFree(es[1..]))
  }

  lemma {:induction false} AllSingleFreeAppend(a: seq<Expr>, b: seq<Expr>)
    ensures AllSingleFree(a + b) <==> AllSingleFree(a) && AllSingleFree(b)
  {
    if a == [] {
      assert a + b == b;
    } else {
      assert (a + b)[1..] == a[1..] + b;
      AllSingleFreeAppend(a[1..], b);
    }
  }

  /** A flat expression is left as it is exactly if it has no single children; else it gets smaller. */
  lemma {:induction false} FlatFixpoint(e: Expr)
    requires Flat(e)
    ensures Optimized(e) == e <==> SingleFree(e)
    ensures Optimized(e) != e ==> Size(Optimized(e)) < Size(e)
    decreases e
  {
    match e
    case Or(children) =>
      if |children| == 1 { OptimizeNeverGrows(children[0]); assert SizeAll(children[1..]) == 0; }
      else { FlatSplicing(children, true); }
    case And(children) =>
      if |children| == 1 { OptimizeNeverGrows(children[0]); assert SizeAll(children[1..]) == 0; }
      else { FlatSplicing(children, false); }
    case Not(child) => FlatFixpoint(child); OptimizeNeverGrows(child);
    case NOf(children, _, _) => FlatAll(children);
    case Leaf(_) =>
  }

  lemma {:induction false} FlatSplicing(es: seq<Expr>, inOr: bool)
    requires AllFlat(es) && forall c :: c in es ==> if inOr then !c.Or? else !c.And?
    ensures Spliced(es, inOr) == es <==> AllSingleFree(es)
    ensures Spliced(es, inOr) != es ==> SizeAll(Spliced(es, inOr)) < SizeAll(es)
    decreases es
  {
    if es != [] {
      var x := Optimized(es[0]);
      FlatFixpoint(es[0]);
      FlatSplicing(es[1..], inOr);
      SplicingNeverGrows(es[1..], inOr);
      SizeAppend(Parts(x, inOr), Spliced(es[1..], inOr));
      assert SizeAll(Parts(x, inOr)) <= Size(x);
      assert es == [es[0]] + es[1..];
      if x == es[0] {
        assert Spliced(es, inOr) == [es[0]] + Spliced(es[1..], inOr);
        assert Spliced(es, inOr) == es ==> Spliced(es, inOr)[1..] == es[1..];
      }
    }
  }

  lemma {:induction false} FlatAll(es: seq<Expr>)
    requires AllFlat(es)
    ensures OptimizedAll(es) == es <==> AllSingleFree(es)
    ensures OptimizedAll(es) != es ==> SizeAll(OptimizedAll(es)) < SizeAll(es)
    decreases es
  {
    if es != [] {
      FlatFixpoint(es[0]);
      FlatAll(es[1..]);
      OptimizeNeverGrows(es[0]);
      OptimizeAllNeverGrows(es[1..]);
      assert es == [es[0]] + es[1..];
      assert OptimizedAll(es)[0] == Optimized(es[0]) && OptimizedAll(es)[1..] == OptimizedAll(es[1..]);
    }
  }

  /**
   What optimizing will make of an expression, found without making it: the number of children, and
   whether everything below is free of single children.
   */
  datatype Sketch =
    | OrOf(n: nat, clean: bool)
    | AndOf(n: nat, clean: bool)
    | NotOf(inner: Sketch)
    | Other(clean: bool)
  {
    predicate PromisesSingleFree() {
      match this
      case OrOf(n, clean) => n != 1 && clean
      case AndOf(n, clean) => n != 1 && clean
      case NotOf(inner) => inner.PromisesSingleFree()
      case Other(clean) => clean
    }

    predicate Describes(e: Expr) {
      match this
      case OrOf(n, clean) => e.Or? && |e.children| == n && clean == AllSingleFree(e.children)
      case AndOf(n, clean) => e.And? && |e.children| == n && clean == AllSingleFree(e.children)
      case NotOf(inner) => e.Not? && inner.Describes(e.child)
      case Other(clean) => !e.Or? && !e.And? && !e.Not? && clean == SingleFree(e)
    }

    lemma {:induction false} DescribesSingleFree(e: Expr)
      requires Describes(e)
      ensures PromisesSingleFree() == SingleFree(e)
    {
      match this
      case NotOf(inner) => inner.DescribesSingleFree(e.child);
      case _ =>
    }
  }

  function SketchOf(e: Expr): Sketch {
    match e
    case Or(children) =>
      if |children| == 1 then SketchOf(children[0])
      else var (n, clean) := SketchSpliced(children, true); OrOf(n, clean)
    case And(children) =>
      if |children| == 1 then SketchOf(children[0])
      else var (n, clean) := SketchSpliced(children, false); AndOf(n, clean)
    case Not(child) =>
      var s := SketchOf(child);
      if s.NotOf? then s.inner else NotOf(s)
    case NOf(children, _, _) => Other(SketchAllClean(children))
    case Leaf(_) => Other(true)
  }

  /** The number of children that the expressions become, and whether these are free of single children. */
  function SketchSpliced(es: seq<Expr>, inOr: bool): (nat, bool) {
    if es == [] then (0, true)
    else
      var s, (n, clean) := SketchOf(es[0]), SketchSpliced(es[1..], inOr);
      if inOr && s.OrOf? then (s.n + n, s.clean && clean)
      else if !inOr && s.AndOf? then (s.n + n, s.clean && clean)
      else (1 + n, s.PromisesSingleFree() && clean)
  }

  predicate SketchAllClean(es: seq<Expr>) {
    es == [] || (SketchOf(es[0]).PromisesSingleFree() && SketchAllClean(es[1..]))
  }

  lemma {:induction false} SketchDescribes(e: Expr)
    ensures SketchOf(e).Describes(Optimized(e))
    decreases e
  {
    match e
    case Or(children) =>
      if |children| == 1 { SketchDescribes(children[0]); } else { SketchDescribesSpliced(children, true); }
    case And(children) =>
      if |children| == 1 { SketchDescribes(children[0]); } else { SketchDescribesSpliced(children, false); }
    case Not(child) => SketchDescribes(child);
    case NOf(children, _, _) => SketchDescribesAll(children);
    case Leaf(_) =>
  }

  lemma {:induction false} SketchDescribesSpliced(es: seq<Expr>, inOr: bool)
    ensures SketchSpliced(es, inOr) == (|Spliced(es, inOr)|, AllSingleFree(Spliced(es, inOr)))
    decreases es
  {
    if es != [] {
      SketchDescribes(es[0]);
      SketchOf(es[0]).DescribesSingleFree(Optimized(es[0]));
      SketchDescribesSpliced(es[1..], inOr);
      var x := Optimized(es[0]);
      AllSingleFreeAppend(Parts(x, inOr), Spliced(es[1..], inOr));
      assert AllSingleFree([x]) == SingleFree(x);
    }
  }

  lemma {:induction false} SketchDescribesAll(es: seq<Expr>)
    ensures SketchAllClean(es) == AllSingleFree(OptimizedAll(es))
    decreases es
  {
    if es != [] {
      SketchDescribes(es[0]);
      SketchOf(es[0]).DescribesSingleFree(Optimized(es[0]));
      SketchDescribesAll(es[1..]);
    }
  }

  /**
   Optimizing a second time changes nothing if and only if splicing away empty children does not leave
   any `Or` or `And` with a single child, which the sketch of the expression tells beforehand.
   */
  lemma IdempotentExactly(e: Expr)
    ensures Optimized(Optimized(e)) == Optimized(e) <==> SketchOf(e).PromisesSingleFree()
  {
    OptimizeFlattens(e);
    FlatFixpoint(Optimized(e));
    SketchDescribes(e);
    SketchOf(e).DescribesSingleFree(Optimized(e));
  }

  // ---- Without empty disjunctions and conjunctions

  predicate NoEmpty(e: Expr) {
    match e
    case Or(children) => children != [] && AllNoEmpty(children)
    case And(children) => children != [] && AllNoEmpty(children)
    case Not(child) => NoEmpty(child)
    case NOf(children, _, _) => AllNoEmpty(children)
    case Leaf(_) => true
  }

  predicate AllNoEmpty(es: seq<Expr>) {
    es == [] || (NoEmpty(es[0]) && AllNoEmpty(es[1..]))
  }

  /** The sketch has no node with fewer than two children. */
  predicate Branching(s: Sketch) {
    match s
    case OrOf(n, clean) => n >= 2 && clean
    case AndOf(n, clean) => n >= 2 && clean
    case NotOf(inner) => Branching(inner)
    case Other(clean) => clean
  }

  lemma {:induction false} NoEmptyIsBranching(e: Expr)
    requires NoEmpty(e)
    ensures Branching(SketchOf(e))
    decreases e
  {
    match e
    case Or(children) =>
      if |children| == 1 { NoEmptyIsBranching(children[0]); } else { NoEmptySpliced(children, true); }
    case And(children) =>
      if |children| == 1 { NoEmptyIsBranching(children[0]); } else { NoEmptySpliced(children, false); }
    case Not(child) => NoEmptyIsBranching(child);
    case NOf(children, _, _) => NoEmptyAll(children);
    case Leaf(_) =>
  }

  lemma {:induction false} BranchingIsSingleFree(s: Sketch)
    requires Branching(s)
    ensures s.PromisesSingleFree()
  {
    if s.NotOf? {
      BranchingIsSingleFree(s.inner);
    }
  }

  lemma {:induction false} NoEmptySpliced(es: seq<Expr>, inOr: bool)
    requires AllNoEmpty(es)
    ensures SketchSpliced(es, inOr).0 >= |es| && SketchSpliced(es, inOr).1
    decreases es
  {
    if es != [] {
      NoEmptyIsBranching(es[0]);
      BranchingIsSingleFree(SketchOf(es[0]));
      NoEmptySpliced(es[1..], inOr);
    }
  }

  lemma {:induction false} NoEmptyAll(es: seq<Expr>)
    requires AllNoEmpty(es)
    ensures SketchAllClean(es)
    decreases es
  {
    if es != [] {
      NoEmptyIsBranching(es[0]);
      BranchingIsSingleFree(SketchOf(es[0]));
      NoEmptyAll(es[1..]);
    }
  }

  /** In particular the optimizer is idempotent on expressions without empty `Or` and `And`. */
  lemma IdempotentWithoutEmpty(e: Expr)
    requires NoEmpty(e)
    ensures Optimized(Optimized(e)) == Optimized(e)
  {
    NoEmptyIsBranching(e);
    BranchingIsSingleFree(SketchOf(e));
    IdempotentExactly(e);
  }

  /** It is not in general: here an empty `Or` leaves an `Or` with a single child. */
  lemma NotIdempotent()
    ensures
      var leaf := Leaf(HasNucleotideMutation(1));
      var e := Or([Or([]), leaf]);
      Optimized(e) == Or([leaf]) && Optimized(Optimized(e)) == leaf
  {
    var leaf := Leaf(HasNucleotideMutation(1));
    var es := [Or([]), leaf];
    assert es[1..] == [leaf] && [leaf][1..] == [];
    assert Spliced([leaf], true) == [leaf];
    assert Spliced([], true) == [];
    assert Optimized(Or([])) == Or([]);
    assert Spliced(es, true) == [] + Spliced([leaf], true);
  }
}
