/**
 Time spans in a log, from a line that matches one pattern to the next one that matches another.

 The loop finds the one greedy choice of spans: they are in order, share no line, and no other choice
 has more of them. A start line that no end line follows is an error.
 */
module GrepDiff {
  import opened Sequences
  import opened Wrappers
  import Times

  /** What matching a pattern and reading a timestamp answer; neither is modelled further. */
  datatype Patterns = Patterns(
    isStart: string -> bool,
    isEnd: string -> bool,
    parse: string -> Option<int>)

  datatype Timing = Timing(timestamp: int, lineno: nat, rest: string)

  datatype Span = Span(start: Timing, end: Timing)

  // ---- Lines

  /** A line counts when it has a tab, what follows matches, and what precedes is a timestamp. */
  function Match(line: string, matches: string -> bool, parse: string -> Option<int>): Option<(int, string)> {
    var parts := SplitOnce(line, '\t');
    if parts.None? || !matches(parts.value.1) then None
    else
      var timestamp := parse(parts.value.0);
      if timestamp.None? then None else Some((timestamp.value, parts.value.1))
  }

  function Matching(lines: seq<string>, matches: string -> bool, parse: string -> Option<int>): (r: seq<bool>)
    ensures |r| == |lines|
  {
    seq(|lines|, i requires 0 <= i < |lines| => Match(lines[i], matches, parse).Some?)
  }

  function TimingAt(
      lines: seq<string>, matches: string -> bool, parse: string -> Option<int>, lineno: nat, i: nat): Timing
    requires i < |lines| && Match(lines[i], matches, parse).Some?
  {
    var m := Match(lines[i], matches, parse).value;
    Timing(m.0, lineno + i, m.1)
  }

  /** Text before the first tab of a line that is a timestamp, and text behind it that matches. */
  ghost predicate ReadsAs(
      line: string, matches: string -> bool, parse: string -> Option<int>, timestamp: int, rest: string)
  {
    exists text :: '\t' !in text && line == text + "\t" + rest && parse(text) == Some(timestamp) && matches(rest)
  }

  lemma TextUpToTab(line: string, text: string, rest: string)
    requires '\t' !in text && line == text + "\t" + rest
    ensures SplitOnce(line, '\t') == Some((text, rest))
  {
    SplitAtSeparator(text, '\t', rest);
  }

  /** A line is taken exactly if it can be read in that way, and that is then what is taken from it. */
  lemma MatchReadsTheLine(
      line: string, matches: string -> bool, parse: string -> Option<int>, timestamp: int, rest: string)
    ensures Match(line, matches, parse) == Some((timestamp, rest)) <==> ReadsAs(line, matches, parse, timestamp, rest)
  {
    SplitRejoins(line, '\t');
    if Match(line, matches, parse) == Some((timestamp, rest)) {
      var text := SplitOnce(line, '\t').value.0;
      assert line == text + "\t" + rest;
    }
    if ReadsAs(line, matches, parse, timestamp, rest) {
      var text :| '\t' !in text && line == text + "\t" + rest && parse(text) == Some(timestamp) && matches(rest);
      TextUpToTab(line, text, rest);
    }
  }

  /** What is reported of a line: its timestamp, its number from the given one on, and its text. */
  lemma TimingIsRead(
      lines: seq<string>, matches: string -> bool, parse: string -> Option<int>, lineno: nat, i: nat)
    requires i < |lines| && Match(lines[i], matches, parse).Some?
    ensures
      var t := TimingAt(lines, matches, parse, lineno, i);
      t.lineno == lineno + i && ReadsAs(lines[i], matches, parse, t.timestamp, t.rest)
  {
    var (timestamp, rest) := Match(lines[i], matches, parse).value;
    MatchReadsTheLine(lines[i], matches, parse, timestamp, rest);
  }

  // ---- The search on line numbers

  /** Pairs of start and end lines, and a start line without an end. */
  datatype Found = Found(pairs: seq<(nat, nat)>, unmatched: Option<nat>)

  function NextMatch(ms: seq<bool>, i: nat): (r: nat)
    requires i <= |ms|
    ensures i <= r <= |ms|
    ensures r < |ms| ==> ms[r]
    ensures forall k :: i <= k < r ==> !ms[k]
    decreases |ms| - i
  {
    if i == |ms| || ms[i] then i else NextMatch(ms, i + 1)
  }

  function FindFrom(starts: seq<bool>, ends: seq<bool>, i: nat): Found
    requires |starts| == |ends| && i <= |starts|
    decreases |starts| - i
  {
    if i == |starts| then Found([], None)
    else if !starts[i] then FindFrom(starts, ends, i + 1)
    else
      var e := NextMatch(ends, i + 1);
      if e == |ends| then Found([], Some(i))
      else
        var rest := FindFrom(starts, ends, e + 1);
        Found([(i, e)] + rest.pairs, rest.unmatched)
  }

  /** A span in these lines. */
  predicate IsSpan(starts: seq<bool>, ends: seq<bool>, p: (nat, nat))
    requires |starts| == |ends|
  {
    p.0 < p.1 < |ends| && starts[p.0] && ends[p.1]
  }

  /** Spans in order that share no line. */
  predicate Disjoint(starts: seq<bool>, ends: seq<bool>, from: nat, pairs: seq<(nat, nat)>)
    requires |starts| == |ends|
    decreases |pairs|
  {
    pairs == [] ||
    (from <= pairs[0].0 && IsSpan(starts, ends, pairs[0]) && Disjoint(starts, ends, pairs[0].1 + 1, pairs[1..]))
  }

  ghost predicate NoneIn(ms: seq<bool>, i: nat, j: nat) {
    forall k :: i <= k < j && k < |ms| ==> !ms[k]
  }

  /**
   * Each start is the first start line that is free, each end is the first end line after it; after
   * the last end there is no start, or the first one has no end after it.
   */
  ghost predicate IsGreedy(starts: seq<bool>, ends: seq<bool>, from: nat, found: Found)
    requires |starts| == |ends|
    decreases |found.pairs|
  {
    if found.pairs == [] then
      match found.unmatched
      case None => NoneIn(starts, from, |starts|)
      case Some(u) => from <= u < |starts| && starts[u] && NoneIn(starts, from, u) && NoneIn(ends, u + 1, |ends|)
    else
      var p := found.pairs[0];
      && from <= p.0 && IsSpan(starts, ends, p)
      && NoneIn(starts, from, p.0) && NoneIn(ends, p.0 + 1, p.1)
      && IsGreedy(starts, ends, p.1 + 1, Found(found.pairs[1..], found.unmatched))
  }

  lemma {:induction false} SearchIsGreedy(starts: seq<bool>, ends: seq<bool>, i: nat)
    requires |starts| == |ends| && i <= |starts|
    ensures IsGreedy(starts, ends, i, FindFrom(starts, ends, i))
    decreases |starts| - i
  {
    if i < |starts| {
      if !starts[i] {
        SearchIsGreedy(starts, ends, i + 1);
      } else {
        var e := NextMatch(ends, i + 1);
        if e < |ends| {
          SearchIsGreedy(starts, ends, e + 1);
          var found, rest := FindFrom(starts, ends, i), FindFrom(starts, ends, e + 1);
          assert found.pairs[1..] == rest.pairs;
        }
      }
    }
  }

  /** Being greedy determines the result. */
  lemma {:induction false} GreedyIsSearch(starts: seq<bool>, ends: seq<bool>, i: nat, found: Found)
    requires |starts| == |ends| && i <= |starts| && IsGreedy(starts, ends, i, found)
    ensures found == FindFrom(starts, ends, i)
    decreases |starts| - i
  {
    if i < |starts| {
      if !starts[i] {
        GreedyIsSearch(starts, ends, i + 1, found);
      } else if found.pairs != [] {
        var p, rest := found.pairs[0], Found(found.pairs[1..], found.unmatched);
        assert p.0 == i && NextMatch(ends, i + 1) == p.1;
        GreedyIsSearch(starts, ends, p.1 + 1, rest);
        assert found.pairs == [p] + rest.pairs;
      }
    }
  }

  /** No choice of disjoint spans has more spans than are found, with or without an unmatched start. */
  lemma {:induction false} FindsTheMost(
      starts: seq<bool>, ends: seq<bool>, found: Found, i: nat, other: seq<(nat, nat)>, from: nat)
    requires |starts| == |ends| && i <= from
    requires IsGreedy(starts, ends, i, found) && Disjoint(starts, ends, from, other)
    ensures |other| <= |found.pairs|
    decreases |other|
  {
    if other != [] {
      var o := other[0];
      assert IsSpan(starts, ends, o);
      if found.pairs != [] {
        var p := found.pairs[0];
        assert p.0 <= o.0 && p.1 <= o.1;
        FindsTheMost(starts, ends, Found(found.pairs[1..], found.unmatched), p.1 + 1, other[1..], o.1 + 1);
      }
    }
  }

  /** The spans that are found are themselves such a choice. */
  lemma {:induction false} GreedyIsDisjoint(starts: seq<bool>, ends: seq<bool>, i: nat, found: Found)
    requires |starts| == |ends| && IsGreedy(starts, ends, i, found)
    ensures Disjoint(starts, ends, i, found.pairs)
    decreases |found.pairs|
  {
    if found.pairs != [] {
      GreedyIsDisjoint(starts, ends, found.pairs[0].1 + 1, Found(found.pairs[1..], found.unmatched));
    }
  }

  /**
   * A start is left unmatched when there is a start line that no end line follows, itself included;
   * and only when there is a start line that no other end line follows.
   */
  lemma {:induction false} UnmatchedWhen(starts: seq<bool>, ends: seq<bool>, i: nat, found: Found)
    requires |starts| == |ends| && IsGreedy(starts, ends, i, found)
    ensures (exists s :: i <= s < |starts| && starts[s] && NoneIn(ends, s, |ends|)) ==> found.unmatched.Some?
    ensures found.unmatched.Some? ==> exists s :: i <= s < |starts| && starts[s] && NoneIn(ends, s + 1, |ends|)
    decreases |found.pairs|
  {
    if found.pairs != [] {
      UnmatchedWhen(starts, ends, found.pairs[0].1 + 1, Found(found.pairs[1..], found.unmatched));
    } else if found.unmatched.Some? {
      assert starts[found.unmatched.value];
    }
  }

  // ---- The loops

  ghost predicate AreSpans(p: Patterns, lines: seq<string>, pairs: seq<(nat, nat)>) {
    forall k :: 0 <= k < |pairs| ==>
      IsSpan(Matching(lines, p.isStart, p.parse), Matching(lines, p.isEnd, p.parse), pairs[k])
  }

  function Render(p: Patterns, lines: seq<string>, lineno: nat, pairs: seq<(nat, nat)>): (r: seq<Span>)
    requires AreSpans(p, lines, pairs)
    ensures |r| == |pairs|
  {
    if pairs == [] then []
    else
      var front, last := pairs[..|pairs| - 1], pairs[|pairs| - 1];
      assert IsSpan(Matching(lines, p.isStart, p.parse), Matching(lines, p.isEnd, p.parse), last);
      Render(p, lines, lineno, front)
      + [Span(TimingAt(lines, p.isStart, p.parse, lineno, last.0), TimingAt(lines, p.isEnd, p.parse, lineno, last.1))]
  }

  /** The spans that are reported are those of the pairs, in order: what their start and end lines read. */
  lemma {:induction false} RenderedIsRead(p: Patterns, lines: seq<string>, lineno: nat, pairs: seq<(nat, nat)>, k: nat)
    requires AreSpans(p, lines, pairs) && k < |pairs|
    ensures pairs[k].0 < pairs[k].1 < |lines|
    ensures
      var span := Render(p, lines, lineno, pairs)[k];
      && span.start.lineno == lineno + pairs[k].0 && span.end.lineno == lineno + pairs[k].1
      && ReadsAs(lines[pairs[k].0], p.isStart, p.parse, span.start.timestamp, span.start.rest)
      && ReadsAs(lines[pairs[k].1], p.isEnd, p.parse, span.end.timestamp, span.end.rest)
  {
    var n := |pairs| - 1;
    assert IsSpan(Matching(lines, p.isStart, p.parse), Matching(lines, p.isEnd, p.parse), pairs[k]);
    if k == n {
      TimingIsRead(lines, p.isStart, p.parse, lineno, pairs[n].0);
      TimingIsRead(lines, p.isEnd, p.parse, lineno, pairs[n].1);
    } else {
      RenderedIsRead(p, lines, lineno, pairs[..n], k);
    }
  }

  lemma {:induction false} DisjointAreSpans(p: Patterns, lines: seq<string>, from: nat, pairs: seq<(nat, nat)>)
    requires Disjoint(Matching(lines, p.isStart, p.parse), Matching(lines, p.isEnd, p.parse), from, pairs)
    ensures AreSpans(p, lines, pairs)
    decreases |pairs|
  {
    if pairs != [] {
      DisjointAreSpans(p, lines, pairs[0].1 + 1, pairs[1..]);
      assert forall k :: 0 < k < |pairs| ==> pairs[k] == pairs[1..][k - 1];
    }
  }

  /** The result for the one greedy choice of spans: the spans, or the unmatched start as an error. */
  ghost predicate Reports(p: Patterns, lines: seq<string>, lineno: nat, r: Result<seq<Span>, Timing>, found: Found) {
    && IsGreedy(Matching(lines, p.isStart, p.parse), Matching(lines, p.isEnd, p.parse), 0, found)
    && AreSpans(p, lines, found.pairs)
    && match found.unmatched
      case None => r == Success(Render(p, lines, lineno, found.pairs))
      case Some(u) =>
        u < |lines| && Match(lines[u], p.isStart, p.parse).Some?
        && r == Failure(TimingAt(lines, p.isStart, p.parse, lineno, u))
  }

  /** What is found before line `i`, and then what is found from there, is what is found. */
  ghost predicate Splits(starts: seq<bool>, ends: seq<bool>, i: nat, pairs: seq<(nat, nat)>)
    requires |starts| == |ends|
  {
    i <= |starts|
    && FindFrom(starts, ends, 0).pairs == pairs + FindFrom(starts, ends, i).pairs
    && FindFrom(starts, ends, 0).unmatched == FindFrom(starts, ends, i).unmatched
  }

  ghost predicate Progress(
      p: Patterns, lines: seq<string>, lineno: nat, i: nat, pairs: seq<(nat, nat)>, spans: seq<Span>)
  {
    && Splits(Matching(lines, p.isStart, p.parse), Matching(lines, p.isEnd, p.parse), i, pairs)
    && AreSpans(p, lines, pairs)
    && spans == Render(p, lines, lineno, pairs)
  }

  lemma SplitsNext(starts: seq<bool>, ends: seq<bool>, i: nat, pairs: seq<(nat, nat)>, j: nat)
    requires |starts| == |ends| && Splits(starts, ends, i, pairs) && i < |starts| && starts[i]
    requires j == NextMatch(ends, i + 1) < |ends|
    ensures Splits(starts, ends, j + 1, pairs + [(i, j)])
  {
    var rest := FindFrom(starts, ends, j + 1);
    assert pairs + ([(i, j)] + rest.pairs) == (pairs + [(i, j)]) + rest.pairs;
  }

  lemma RenderNext(p: Patterns, lines: seq<string>, lineno: nat, pairs: seq<(nat, nat)>, i: nat, j: nat)
    requires AreSpans(p, lines, pairs) && i < j < |lines|
    requires Match(lines[i], p.isStart, p.parse).Some? && Match(lines[j], p.isEnd, p.parse).Some?
    ensures AreSpans(p, lines, pairs + [(i, j)])
    ensures Render(p, lines, lineno, pairs + [(i, j)])
         == Render(p, lines, lineno, pairs)
            + [Span(TimingAt(lines, p.isStart, p.parse, lineno, i), TimingAt(lines, p.isEnd, p.parse, lineno, j))]
  {
    assert (pairs + [(i, j)])[..|pairs|] == pairs;
  }

  lemma NextSpan(p: Patterns, lines: seq<string>, lineno: nat, i: nat, pairs: seq<(nat, nat)>, spans: seq<Span>, j: nat)
    requires Progress(p, lines, lineno, i, pairs, spans) && i < |lines| && Match(lines[i], p.isStart, p.parse).Some?
    requires j == NextMatch(Matching(lines, p.isEnd, p.parse), i + 1) < |lines|
    requires Match(lines[j], p.isEnd, p.parse).Some?
    ensures Progress(p, lines, lineno, j + 1, pairs + [(i, j)],
                     spans + [Span(TimingAt(lines, p.isStart, p.parse, lineno, i),
                                   TimingAt(lines, p.isEnd, p.parse, lineno, j))])
  {
    SplitsNext(Matching(lines, p.isStart, p.parse), Matching(lines, p.isEnd, p.parse), i, pairs, j);
    RenderNext(p, lines, lineno, pairs, i, j);
  }

  /** The search ends at the end of the lines or at a start without an end. */
  lemma Reported(p: Patterns, lines: seq<string>, lineno: nat, i: nat, pairs: seq<(nat, nat)>, spans: seq<Span>)
    requires Progress(p, lines, lineno, i, pairs, spans)
    ensures i == |lines| ==> exists found :: Reports(p, lines, lineno, Success(spans), found)
    ensures
      (i < |lines| && Match(lines[i], p.isStart, p.parse).Some?
       && NextMatch(Matching(lines, p.isEnd, p.parse), i + 1) == |lines|) ==>
      exists found :: Reports(p, lines, lineno, Failure(TimingAt(lines, p.isStart, p.parse, lineno, i)), found)
  {
    var starts, ends := Matching(lines, p.isStart, p.parse), Matching(lines, p.isEnd, p.parse);
    var found := FindFrom(starts, ends, 0);
    SearchIsGreedy(starts, ends, 0);
    GreedyIsDisjoint(starts, ends, 0, found);
    DisjointAreSpans(p, lines, 0, found.pairs);
    if i == |lines| {
      assert pairs + [] == pairs;
      assert Reports(p, lines, lineno, Success(spans), found);
    } else if Match(lines[i], p.isStart, p.parse).Some? && NextMatch(ends, i + 1) == |lines| {
      assert Reports(p, lines, lineno, Failure(TimingAt(lines, p.isStart, p.parse, lineno, i)), found);
    }
  }

  method FindMatchingSpansFor(p: Patterns, log: string, lineno: nat) returns (r: Result<seq<Span>, Timing>)
    ensures exists found :: Reports(p, Split(log, '\n'), lineno, r, found)
  {
    var lines := Split(log, '\n');
    ghost var pairs: seq<(nat, nat)> := [];
    var spans: seq<Span>, i := [], 0;
    while i < |lines|
      invariant Progress(p, lines, lineno, i, pairs, spans)
    {
      var m := Match(lines[i], p.isStart, p.parse);
      if m.Some? {
        var start := Timing(m.value.0, lineno + i, m.value.1);
        var j, end := NextLine(p, lines, lineno, i + 1);
        if end.None? {
          Reported(p, lines, lineno, i, pairs, spans);
          return Failure(start);
        }
        NextSpan(p, lines, lineno, i, pairs, spans, j);
        spans := spans + [Span(start, end.value)];
        pairs := pairs + [(i, j)];
        i := j + 1;
      } else {
        i := i + 1;
      }
    }
    Reported(p, lines, lineno, i, pairs, spans);
    r := Success(spans);
  }

  /** Consumes lines up to the next one that ends a span. */
  method NextLine(p: Patterns, lines: seq<string>, lineno: nat, from: nat) returns (j: nat, end: Option<Timing>)
    requires from <= |lines|
    ensures j == NextMatch(Matching(lines, p.isEnd, p.parse), from)
    ensures if j == |lines| then end == None
      else Match(lines[j], p.isEnd, p.parse).Some? && end == Some(TimingAt(lines, p.isEnd, p.parse, lineno, j))
  {
    ghost var ends := Matching(lines, p.isEnd, p.parse);
    j := from;
    while j < |lines|
      invariant from <= j <= |lines| && NextMatch(ends, from) == NextMatch(ends, j)
    {
      var m := Match(lines[j], p.isEnd, p.parse);
      if m.Some? {
        end := Some(Timing(m.value.0, lineno + j, m.value.1));
        return;
      }
      j := j + 1;
    }
    end := None;
  }

  // ---- The duration of a span

  datatype DurationError = DoesNotFit | Negative | TooLarge

  const I64_MAX := 0x7fff_ffff_ffff_ffff

  /** Timestamps are in nanoseconds here. */
  function DurationNanotime(s: Span): Result<Times.Time, DurationError> {
    var ns := s.end.timestamp - s.start.timestamp;
    if !(-I64_MAX - 1 <= ns <= I64_MAX) then Failure(DoesNotFit)
    else if ns < 0 then Failure(Negative)
    else
      var t := Times.FromIncrements(Times.Nano, ns);
      if t.None? then Failure(TooLarge) else Success(t.value)
  }

  /** A duration is given exactly when the end is not earlier and the span is under 2^32 seconds; then it is exact. */
  lemma DurationIsDifference(s: Span)
    ensures DurationNanotime(s).Success? <==>
      s.start.timestamp <= s.end.timestamp < s.start.timestamp + Times.U32 * 1_000_000_000
    ensures DurationNanotime(s).Success? ==>
      && Times.IsValid(Times.Nano, DurationNanotime(s).value)
      && s.start.timestamp + Times.Increments(Times.Nano, DurationNanotime(s).value) == s.end.timestamp
  {
    var ns := s.end.timestamp - s.start.timestamp;
    if ns >= 0 {
      Times.RoundTrips(Times.Nano, ns, Times.Time(0, 0));
    }
  }
}
