/** Inner joins of sequences that are ordered by key. Of the keys only their order matters. */
module Join {
  import opened Wrappers

  type Key = int

  datatype KeyVal<+V> = KeyVal(key: Key, val: V)

  ghost predicate Sorted<V>(s: seq<KeyVal<V>>) {
    forall i, j :: 0 <= i < j < |s| ==> s[i].key <= s[j].key
  }

  /** Merges two sequences by key and keeps the pairs of elements with the same key. */
  function InnerJoin2<V, W>(a: seq<KeyVal<V>>, b: seq<KeyVal<W>>): seq<KeyVal<(V, W)>>
    decreases |a| + |b|
  {
    if a == [] || b == [] then []
    else if a[0].key < b[0].key then InnerJoin2(a[1..], b)
    else if a[0].key > b[0].key then InnerJoin2(a, b[1..])
    else [KeyVal(a[0].key, (a[0].val, b[0].val))] + InnerJoin2(a[1..], b[1..])
  }

  function Singles<V>(s: seq<KeyVal<V>>): (r: seq<KeyVal<seq<V>>>)
    ensures |r| == |s| && forall i :: 0 <= i < |s| ==> r[i] == KeyVal(s[i].key, [s[i].val])
  {
    seq(|s|, i requires 0 <= i < |s| => KeyVal(s[i].key, [s[i].val]))
  }

  function Appended<V>(s: seq<KeyVal<(seq<V>, seq<V>)>>): (r: seq<KeyVal<seq<V>>>)
    ensures |r| == |s| && forall i :: 0 <= i < |s| ==> r[i] == KeyVal(s[i].key, s[i].val.0 + s[i].val.1)
  {
    seq(|s|, i requires 0 <= i < |s| => KeyVal(s[i].key, s[i].val.0 + s[i].val.1))
  }

  function Pairs<V>(s: seq<KeyVal<(V, V)>>): (r: seq<KeyVal<seq<V>>>)
    ensures |r| == |s| && forall i :: 0 <= i < |s| ==> r[i] == KeyVal(s[i].key, [s[i].val.0, s[i].val.1])
  {
    seq(|s|, i requires 0 <= i < |s| => KeyVal(s[i].key, [s[i].val.0, s[i].val.1]))
  }

  /** Joins any number of sequences, by halves. */
  function InnerJoin<V>(sequences: seq<seq<KeyVal<V>>>): (r: Option<seq<KeyVal<seq<V>>>>)
    ensures r.None? <==> sequences == []
  {
    var n := |sequences|;
    if n == 0 then None
    else if n == 1 then Some(Singles(sequences[0]))
    else if n == 2 then Some(Pairs(InnerJoin2(sequences[0], sequences[1])))
    else
      var ar, br := InnerJoin(sequences[..n / 2]), InnerJoin(sequences[n / 2..]);
      Some(Appended(InnerJoin2(ar.value, br.value)))
  }

  /** The naive way: one sequence after the other. */
  function JoinOneByOne<V>(sequences: seq<seq<KeyVal<V>>>): seq<KeyVal<seq<V>>>
    requires sequences != []
  {
    var n := |sequences| - 1;
    if n == 0 then Singles(sequences[0])
    else Appended(InnerJoin2(JoinOneByOne(sequences[..n]), Singles(sequences[n])))
  }

  // ---- What the rows for a key are

  /** The values for a key, in order. */
  function Vals<V>(s: seq<KeyVal<V>>, k: Key): seq<V> {
    if s == [] then [] else (if s[0].key == k then [s[0].val] else []) + Vals(s[1..], k)
  }

  function Min(a: nat, b: nat): nat {
    if a <= b then a else b
  }

  /** How many rows there are for a key: as many as in the sequence with the fewest. */
  function Multiplicity<V>(sequences: seq<seq<KeyVal<V>>>, k: Key): (m: nat)
    requires sequences != []
    ensures forall i :: 0 <= i < |sequences| ==> m <= |Vals(sequences[i], k)|
    ensures exists i :: 0 <= i < |sequences| && m == |Vals(sequences[i], k)|
  {
    var m := |Vals(sequences[0], k)|;
    if |sequences| == 1 then m
    else
      var rest := Multiplicity(sequences[1..], k);
      assert forall i :: 0 < i < |sequences| ==> sequences[i] == sequences[1..][i - 1];
      assert forall i :: 0 <= i < |sequences| - 1 ==> sequences[1..][i] == sequences[i + 1];
      Min(m, rest)
  }

  /** The rows for a key: the j-th one has the j-th value of each sequence, in the order of the sequences. */
  function Rows<V>(sequences: seq<seq<KeyVal<V>>>, k: Key): (rows: seq<seq<V>>)
    requires sequences != []
    ensures |rows| == Multiplicity(sequences, k)
    ensures forall j :: 0 <= j < |rows| ==> |rows[j]| == |sequences|
    ensures forall j, i :: 0 <= j < |rows| && 0 <= i < |sequences| ==> rows[j][i] == Vals(sequences[i], k)[j]
  {
    seq(Multiplicity(sequences, k), j requires 0 <= j < Multiplicity(sequences, k) =>
      seq(|sequences|, i requires 0 <= i < |sequences| => Vals(sequences[i], k)[j]))
  }

  function Zip<V, W>(a: seq<V>, b: seq<W>): (r: seq<(V, W)>)
    ensures |r| == Min(|a|, |b|) && forall j :: 0 <= j < |r| ==> r[j] == (a[j], b[j])
  {
    seq(Min(|a|, |b|), j requires 0 <= j < Min(|a|, |b|) => (a[j], b[j]))
  }

  // ---- Two sequences

  lemma {:induction false} NoValsBelow<V>(s: seq<KeyVal<V>>, k: Key)
    requires forall i :: 0 <= i < |s| ==> s[i].key > k
    ensures Vals(s, k) == []
  {
    if s != [] {
      NoValsBelow(s[1..], k);
    }
  }

  lemma SortedTail<V>(s: seq<KeyVal<V>>)
    requires Sorted(s) && s != []
    ensures Sorted(s[1..]) && forall i :: 0 <= i < |s| ==> s[0].key <= s[i].key
  {
  }

  /** A first element that is smaller than all of the other sequence takes no part. */
  lemma SmallerTakesNoPart<V, W>(a: seq<KeyVal<V>>, b: seq<KeyVal<W>>, k: Key)
    requires a != [] && b != [] && Sorted(b) && a[0].key < b[0].key
    ensures Zip(Vals(a, k), Vals(b, k)) == Zip(Vals(a[1..], k), Vals(b, k))
    ensures Zip(Vals(b, k), Vals(a, k)) == Zip(Vals(b, k), Vals(a[1..], k))
  {
    SortedTail(b);
    if a[0].key == k {
      NoValsBelow(b, k);
    }
  }

  lemma EqualsArePaired<V, W>(a: seq<KeyVal<V>>, b: seq<KeyVal<W>>, k: Key)
    requires a != [] && b != [] && a[0].key == b[0].key
    ensures Zip(Vals(a, k), Vals(b, k))
         == (if a[0].key == k then [(a[0].val, b[0].val)] else []) + Zip(Vals(a[1..], k), Vals(b[1..], k))
  {
  }

  /** For each key the values are paired up, first with first, second with second, and so on. */
  lemma {:induction false} Join2Vals<V, W>(a: seq<KeyVal<V>>, b: seq<KeyVal<W>>, k: Key)
    requires Sorted(a) && Sorted(b)
    ensures Vals(InnerJoin2(a, b), k) == Zip(Vals(a, k), Vals(b, k))
    decreases |a| + |b|
  {
    if a != [] && b != [] {
      SortedTail(a);
      SortedTail(b);
      if a[0].key < b[0].key {
        Join2Vals(a[1..], b, k);
        SmallerTakesNoPart(a, b, k);
      } else if a[0].key > b[0].key {
        Join2Vals(a, b[1..], k);
        SmallerTakesNoPart(b, a, k);
      } else {
        Join2Vals(a[1..], b[1..], k);
        EqualsArePaired(a, b, k);
        assert InnerJoin2(a, b)[1..] == InnerJoin2(a[1..], b[1..]);
      }
    }
  }

  lemma {:induction false} Join2Keys<V, W>(a: seq<KeyVal<V>>, b: seq<KeyVal<W>>, low: Key)
    requires Sorted(a) && Sorted(b)
    requires forall i :: 0 <= i < |a| ==> low <= a[i].key
    ensures Sorted(InnerJoin2(a, b))
    ensures forall i :: 0 <= i < |InnerJoin2(a, b)| ==> low <= InnerJoin2(a, b)[i].key
    decreases |a| + |b|
  {
    if a != [] && b != [] {
      SortedTail(a);
      SortedTail(b);
      if a[0].key < b[0].key {
        Join2Keys(a[1..], b, low);
      } else if a[0].key > b[0].key {
        Join2Keys(a, b[1..], low);
      } else {
        Join2Keys(a[1..], b[1..], a[0].key);
      }
    }
  }

  lemma Join2Sorted<V, W>(a: seq<KeyVal<V>>, b: seq<KeyVal<W>>)
    requires Sorted(a) && Sorted(b)
    ensures Sorted(InnerJoin2(a, b))
  {
    if a != [] {
      SortedTail(a);
      Join2Keys(a, b, a[0].key);
    }
  }

  // ---- A sorted sequence is determined by the values for each key

  lemma {:induction false} FirstVal<V>(s: seq<KeyVal<V>>)
    requires s != []
    ensures Vals(s, s[0].key) != [] && Vals(s, s[0].key)[0] == s[0].val
  {
  }

  lemma {:induction false} ValsMember<V>(s: seq<KeyVal<V>>, k: Key)
    requires Vals(s, k) != []
    ensures exists i :: 0 <= i < |s| && s[i].key == k
  {
    if s[0].key != k {
      ValsMember(s[1..], k);
      var i :| 0 <= i < |s[1..]| && s[1..][i].key == k;
      assert s[i + 1].key == k;
    }
  }

  lemma SameTailVals<V>(a: seq<KeyVal<V>>, b: seq<KeyVal<V>>, k: Key)
    requires a != [] && b != [] && a[0] == b[0] && Vals(a, k) == Vals(b, k)
    ensures Vals(a[1..], k) == Vals(b[1..], k)
  {
    var first := if a[0].key == k then [a[0].val] else [];
    assert Vals(a, k)[|first|..] == Vals(a[1..], k);
    assert Vals(b, k)[|first|..] == Vals(b[1..], k);
  }

  lemma {:induction false} SortedIsDetermined<V(!new)>(a: seq<KeyVal<V>>, b: seq<KeyVal<V>>)
    requires Sorted(a) && Sorted(b) && forall k :: Vals(a, k) == Vals(b, k)
    ensures a == b
  {
    if a == [] {
      if b != [] { FirstVal(b); }
    } else {
      FirstVal(a);
      ValsMember(b, a[0].key);
      FirstVal(b);
      ValsMember(a, b[0].key);
      SortedTail(a);
      SortedTail(b);
      assert a[0] == b[0];
      forall k
        ensures Vals(a[1..], k) == Vals(b[1..], k)
      {
        assert Vals(a, k) == Vals(b, k);
        SameTailVals(a, b, k);
      }
      SortedIsDetermined(a[1..], b[1..]);
      assert a == [a[0]] + a[1..] && b == [b[0]] + b[1..];
    }
  }

  // ---- Any number of sequences

  ghost predicate AllSorted<V>(sequences: seq<seq<KeyVal<V>>>) {
    forall i :: 0 <= i < |sequences| ==> Sorted(sequences[i])
  }

  /** Sorted, and for each key exactly the rows that there should be. */
  ghost predicate IsJoin<V(!new)>(sequences: seq<seq<KeyVal<V>>>, out: seq<KeyVal<seq<V>>>)
    requires sequences != []
  {
    Sorted(out) && forall k :: Vals(out, k) == Rows(sequences, k)
  }

  lemma {:induction false} ValsOfSingles<V>(s: seq<KeyVal<V>>, k: Key)
    ensures |Vals(Singles(s), k)| == |Vals(s, k)|
    ensures forall j :: 0 <= j < |Vals(s, k)| ==> Vals(Singles(s), k)[j] == [Vals(s, k)[j]]
  {
    if s != [] {
      assert Singles(s)[1..] == Singles(s[1..]);
      ValsOfSingles(s[1..], k);
    }
  }

  lemma SinglesIsJoin<V(!new)>(s: seq<KeyVal<V>>)
    requires Sorted(s)
    ensures IsJoin([s], Singles(s))
  {
    forall k
      ensures Vals(Singles(s), k) == Rows([s], k)
    {
      ValsOfSingles(s, k);
      forall j | 0 <= j < |Vals(s, k)|
        ensures Rows([s], k)[j] == [Vals(s, k)[j]]
      {
        assert |Rows([s], k)[j]| == 1 && Rows([s], k)[j][0] == Vals([s][0], k)[j];
      }
    }
  }

  lemma {:induction false} ValsOfAppended<V>(s: seq<KeyVal<(seq<V>, seq<V>)>>, k: Key)
    ensures |Vals(Appended(s), k)| == |Vals(s, k)|
    ensures forall j :: 0 <= j < |Vals(s, k)| ==> Vals(Appended(s), k)[j] == Vals(s, k)[j].0 + Vals(s, k)[j].1
  {
    if s != [] {
      assert Appended(s)[1..] == Appended(s[1..]);
      ValsOfAppended(s[1..], k);
    }
  }

  lemma MultiplicityOfParts<V>(a: seq<seq<KeyVal<V>>>, b: seq<seq<KeyVal<V>>>, k: Key)
    requires a != [] && b != []
    ensures Multiplicity(a + b, k) == Min(Multiplicity(a, k), Multiplicity(b, k))
  {
    var s, m := a + b, Min(Multiplicity(a, k), Multiplicity(b, k));
    assert forall i :: 0 <= i < |a| ==> s[i] == a[i];
    assert forall i :: 0 <= i < |b| ==> s[|a| + i] == b[i];
  }

  /** The j-th values of some sequences that all have that many. */
  function Row<V>(sequences: seq<seq<KeyVal<V>>>, k: Key, j: nat): (row: seq<V>)
    requires forall i :: 0 <= i < |sequences| ==> j < |Vals(sequences[i], k)|
    ensures |row| == |sequences| && forall i :: 0 <= i < |row| ==> row[i] == Vals(sequences[i], k)[j]
  {
    seq(|sequences|, i requires 0 <= i < |sequences| => Vals(sequences[i], k)[j])
  }

  lemma RowOfParts<V>(a: seq<seq<KeyVal<V>>>, b: seq<seq<KeyVal<V>>>, k: Key, j: nat)
    requires forall i :: 0 <= i < |a| ==> j < |Vals(a[i], k)|
    requires forall i :: 0 <= i < |b| ==> j < |Vals(b[i], k)|
    ensures forall i :: 0 <= i < |a + b| ==> j < |Vals((a + b)[i], k)|
    ensures Row(a + b, k, j) == Row(a, k, j) + Row(b, k, j)
  {
  }

  lemma RowsAreRow<V>(sequences: seq<seq<KeyVal<V>>>, k: Key, j: nat)
    requires sequences != [] && j < |Rows(sequences, k)|
    ensures forall i :: 0 <= i < |sequences| ==> j < |Vals(sequences[i], k)|
    ensures Rows(sequences, k)[j] == Row(sequences, k, j)
  {
  }

  lemma RowsOfParts<V>(a: seq<seq<KeyVal<V>>>, b: seq<seq<KeyVal<V>>>, k: Key)
    requires a != [] && b != []
    ensures |Rows(a + b, k)| == Min(|Rows(a, k)|, |Rows(b, k)|)
    ensures forall j :: 0 <= j < |Rows(a + b, k)| ==> Rows(a + b, k)[j] == Rows(a, k)[j] + Rows(b, k)[j]
  {
    MultiplicityOfParts(a, b, k);
    forall j | 0 <= j < |Rows(a + b, k)|
      ensures Rows(a + b, k)[j] == Rows(a, k)[j] + Rows(b, k)[j]
    {
      RowsAreRow(a, k, j);
      RowsAreRow(b, k, j);
      RowsAreRow(a + b, k, j);
      RowOfParts(a, b, k, j);
    }
  }

  /** Joining the joins of two parts is joining the whole, wherever it is split. */
  lemma JoinOfParts<V(!new)>(
      a: seq<seq<KeyVal<V>>>, b: seq<seq<KeyVal<V>>>, ar: seq<KeyVal<seq<V>>>, br: seq<KeyVal<seq<V>>>)
    requires a != [] && b != [] && IsJoin(a, ar) && IsJoin(b, br)
    ensures IsJoin(a + b, Appended(InnerJoin2(ar, br)))
  {
    var joined := InnerJoin2(ar, br);
    Join2Sorted(ar, br);
    forall k
      ensures Vals(Appended(joined), k) == Rows(a + b, k)
    {
      Join2Vals(ar, br, k);
      ValsOfAppended(joined, k);
      RowsOfParts(a, b, k);
      assert Vals(ar, k) == Rows(a, k) && Vals(br, k) == Rows(b, k);
    }
  }

  lemma {:induction false} PairsAreAppendedSingles<V>(a: seq<KeyVal<V>>, b: seq<KeyVal<V>>)
    ensures Pairs(InnerJoin2(a, b)) == Appended(InnerJoin2(Singles(a), Singles(b)))
    decreases |a| + |b|
  {
    if a != [] && b != [] {
      assert Singles(a)[1..] == Singles(a[1..]) && Singles(b)[1..] == Singles(b[1..]);
      if a[0].key < b[0].key {
        PairsAreAppendedSingles(a[1..], b);
      } else if a[0].key > b[0].key {
        PairsAreAppendedSingles(a, b[1..]);
      } else {
        PairsAreAppendedSingles(a[1..], b[1..]);
        PairsCons(KeyVal(a[0].key, (a[0].val, b[0].val)), InnerJoin2(a[1..], b[1..]));
        AppendedCons(KeyVal(a[0].key, ([a[0].val], [b[0].val])), InnerJoin2(Singles(a[1..]), Singles(b[1..])));
        assert [a[0].val] + [b[0].val] == [a[0].val, b[0].val];
      }
    }
  }

  lemma PairsCons<V>(x: KeyVal<(V, V)>, s: seq<KeyVal<(V, V)>>)
    ensures Pairs([x] + s) == [KeyVal(x.key, [x.val.0, x.val.1])] + Pairs(s)
  {
  }

  lemma AppendedCons<V>(y: KeyVal<(seq<V>, seq<V>)>, s: seq<KeyVal<(seq<V>, seq<V>)>>)
    ensures Appended([y] + s) == [KeyVal(y.key, y.val.0 + y.val.1)] + Appended(s)
  {
  }

  /**
   The join by halves is sorted, has a key as often as the sequence that has it least often, and its j-th
   row for a key lists the j-th values, in the order of the sequences.
   */
  lemma {:induction false} InnerJoinIsJoin<V(!new)>(sequences: seq<seq<KeyVal<V>>>)
    requires AllSorted(sequences) && sequences != []
    ensures IsJoin(sequences, InnerJoin(sequences).value)
  {
    var n := |sequences|;
    if n == 1 {
      SinglesIsJoin(sequences[0]);
      assert sequences == [sequences[0]];
    } else if n == 2 {
      var a, b := sequences[0], sequences[1];
      SinglesIsJoin(a);
      SinglesIsJoin(b);
      JoinOfParts([a], [b], Singles(a), Singles(b));
      PairsAreAppendedSingles(a, b);
      assert sequences == [a] + [b];
    } else {
      var a, b := sequences[..n / 2], sequences[n / 2..];
      InnerJoinIsJoin(a);
      InnerJoinIsJoin(b);
      JoinOfParts(a, b, InnerJoin(a).value, InnerJoin(b).value);
      assert sequences == a + b;
    }
  }

  lemma {:induction false} OneByOneIsJoin<V(!new)>(sequences: seq<seq<KeyVal<V>>>)
    requires AllSorted(sequences) && sequences != []
    ensures IsJoin(sequences, JoinOneByOne(sequences))
  {
    var n := |sequences| - 1;
    SinglesIsJoin(sequences[n]);
    if n == 0 {
      assert sequences == [sequences[0]];
    } else {
      OneByOneIsJoin(sequences[..n]);
      JoinOfParts(sequences[..n], [sequences[n]], JoinOneByOne(sequences[..n]), Singles(sequences[n]));
      assert sequences == sequences[..n] + [sequences[n]];
    }
  }

  /** There is only one such result, so joining by halves is joining one sequence after the other. */
  lemma InnerJoinIsOneByOne<V(!new)>(sequences: seq<seq<KeyVal<V>>>)
    requires AllSorted(sequences) && sequences != []
    ensures InnerJoin(sequences) == Some(JoinOneByOne(sequences))
  {
    InnerJoinIsJoin(sequences);
    OneByOneIsJoin(sequences);
    forall k
      ensures Vals(InnerJoin(sequences).value, k) == Vals(JoinOneByOne(sequences), k)
    {
      assert Vals(JoinOneByOne(sequences), k) == Rows(sequences, k);
    }
    SortedIsDetermined(InnerJoin(sequences).value, JoinOneByOne(sequences));
  }
}
