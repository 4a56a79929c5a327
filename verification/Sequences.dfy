/** Facts about sequences and strings that several models use. */
module Sequences {
  import opened Wrappers

  lemma Associate<T>(a: seq<T>, b: seq<T>, c: seq<T>)
    ensures a + (b + c) == (a + b) + c
  {
  }

  lemma AppendNothing<T>(a: seq<T>)
    ensures [] + a == a && a + [] == a
  {
  }

  /** The parts before and after the first separator. */
  function SplitOnce(s: string, separator: char): Option<(string, string)> {
    if s == [] then None
    else if s[0] == separator then Some(("", s[1..]))
    else
      var rest := SplitOnce(s[1..], separator);
      if rest.None? then None else Some(([s[0]] + rest.value.0, rest.value.1))
  }

  lemma {:induction false} SplitAtSeparator(a: string, separator: char, b: string)
    requires separator !in a
    ensures SplitOnce(a + [separator] + b, separator) == Some((a, b))
  {
    var s := a + [separator] + b;
    if a == [] {
      assert s[1..] == b;
    } else {
      SplitAtSeparator(a[1..], separator, b);
      assert s[1..] == a[1..] + [separator] + b;
      assert [a[0]] + a[1..] == a;
    }
  }

  lemma {:induction false} SplitRejoins(s: string, separator: char)
    ensures SplitOnce(s, separator).Some? ==>
      var (a, b) := SplitOnce(s, separator).value;
      separator !in a && s == a + [separator] + b
    ensures SplitOnce(s, separator).None? <==> separator !in s
  {
    if s != [] && s[0] != separator {
      SplitRejoins(s[1..], separator);
      assert s == [s[0]] + s[1..];
    }
  }

  /** The pieces between separators: one more than there are separators. */
  function Split(s: string, separator: char): (r: seq<string>)
    ensures |r| > 0
  {
    if s == [] then [""]
    else
      var rest := Split(s[1..], separator);
      if s[0] == separator then [""] + rest else [[s[0]] + rest[0]] + rest[1..]
  }

  /** The parts with the separator between them. */
  function Join(parts: seq<string>, separator: string): string {
    if parts == [] then ""
    else if |parts| == 1 then parts[0]
    else parts[0] + separator + Join(parts[1..], separator)
  }

  lemma JoinCons(first: string, rest: seq<string>, separator: string)
    requires rest != []
    ensures Join([first] + rest, separator) == first + separator + Join(rest, separator)
  {
    assert ([first] + rest)[1..] == rest;
  }

  /** Joining the pieces gives back the string, and no separator is left in them. */
  lemma {:induction false} JoinUndoesSplit(s: string, separator: char)
    ensures Join(Split(s, separator), [separator]) == s
    ensures forall i :: 0 <= i < |Split(s, separator)| ==> separator !in Split(s, separator)[i]
  {
    if s != [] {
      var rest := Split(s[1..], separator);
      JoinUndoesSplit(s[1..], separator);
      if s[0] == separator {
        JoinCons("", rest, [separator]);
        assert s == "" + [separator] + s[1..];
      } else {
        JoinFirstLonger(s[0], rest, [separator]);
        assert s == [s[0]] + s[1..];
        assert forall i :: 0 < i < |rest| ==> Split(s, separator)[i] == rest[i];
      }
    }
  }

  lemma JoinFirstLonger(c: char, parts: seq<string>, separator: string)
    requires parts != []
    ensures Join([[c] + parts[0]] + parts[1..], separator) == [c] + Join(parts, separator)
  {
    var longer := [[c] + parts[0]] + parts[1..];
    if |parts| > 1 {
      assert longer[1..] == parts[1..];
      assert [c] + parts[0] + separator + Join(parts[1..], separator)
          == [c] + (parts[0] + separator + Join(parts[1..], separator));
    }
  }

  lemma {:induction false} SplitPiece(piece: string, separator: char, rest: string)
    requires separator !in piece
    ensures Split(piece + [separator] + rest, separator) == [piece] + Split(rest, separator)
    ensures Split(piece, separator) == [piece]
  {
    var s := piece + [separator] + rest;
    if piece == [] {
      assert s[1..] == rest;
    } else {
      SplitPiece(piece[1..], separator, rest);
      assert s[1..] == piece[1..] + [separator] + rest;
      assert piece == [piece[0]] + piece[1..];
    }
  }

  /** And parts without a separator are found again in what they are joined to. */
  lemma {:induction false} SplitUndoesJoin(parts: seq<string>, separator: char)
    requires parts != [] && forall i :: 0 <= i < |parts| ==> separator !in parts[i]
    ensures Split(Join(parts, [separator]), separator) == parts
  {
    if |parts| == 1 {
      SplitPiece(parts[0], separator, "");
    } else {
      SplitUndoesJoin(parts[1..], separator);
      SplitPiece(parts[0], separator, Join(parts[1..], [separator]));
    }
  }
}
