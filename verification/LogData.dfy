/**
 Reading a log file: one message per line. The lines after the two header lines are cut into chunks that
 are decoded in parallel; their results are put together whatever the order in which they come in.
 */
module LogData {
  import opened Sequences
  import opened Wrappers

  type byte = bv8
  type Bytes = seq<byte>

  const NEWLINE: byte := 10

  predicate IsAsciiWhitespace(b: byte) {
    b == 9 || b == 10 || b == 12 || b == 13 || b == 32
  }

  datatype LogMessage = Start(version: nat) | Metadata(info: string) | TEnd(stamp: nat) | Other(content: string)

  /** Decodes a line. */
  type Decoder = Bytes -> Option<LogMessage>

  // ---- Lines

  /** The pieces between newlines; there is one more piece than there are newlines. */
  function Split(s: Bytes): (r: seq<Bytes>)
    ensures r != []
  {
    if s == [] then [[]] else Prepend(s[0], Split(s[1..]))
  }

  function Prepend(b: byte, r: seq<Bytes>): (r': seq<Bytes>)
    requires r != []
    ensures r' != []
  {
    if b == NEWLINE then [[]] + r else [[b] + r[0]] + r[1..]
  }

  lemma PrependAppend(b: byte, r: seq<Bytes>, more: seq<Bytes>)
    requires r != []
    ensures Prepend(b, r + more) == Prepend(b, r) + more
  {
  }

  /** The pieces that are ended by a newline. */
  function Lines(s: Bytes): seq<Bytes> {
    Split(s)[..|Split(s)| - 1]
  }

  /** What comes after the last newline. */
  function Tail(s: Bytes): Bytes {
    Split(s)[|Split(s)| - 1]
  }

  function TrimEnd(s: Bytes): Bytes {
    if s != [] && IsAsciiWhitespace(s[|s| - 1]) then TrimEnd(s[..|s| - 1]) else s
  }

  predicate EndsWithNewline(s: Bytes) {
    s != [] && s[|s| - 1] == NEWLINE
  }

  lemma {:induction false} SplitAppend(a: Bytes, b: Bytes)
    ensures Split(a + [NEWLINE] + b) == Split(a) + Split(b)
  {
    if a == [] {
      assert ([NEWLINE] + b)[1..] == b;
      assert a + [NEWLINE] + b == [NEWLINE] + b;
    } else {
      SplitAppend(a[1..], b);
      assert (a + [NEWLINE] + b)[1..] == a[1..] + [NEWLINE] + b;
      PrependAppend(a[0], Split(a[1..]), Split(b));
    }
  }

  /** Cutting behind a newline cuts between lines. */
  lemma LinesAppend(a: Bytes, b: Bytes)
    requires EndsWithNewline(a)
    ensures Lines(a + b) == Lines(a) + Lines(b) && Tail(a + b) == Tail(b)
  {
    var front := a[..|a| - 1];
    assert a == front + [NEWLINE] + [] && a + b == front + [NEWLINE] + b;
    SplitAppend(front, b);
    SplitAppend(front, []);
  }

  lemma {:induction false} TailFacts(s: Bytes)
    ensures Tail(s) == [] <==> s == [] || EndsWithNewline(s)
    ensures NEWLINE !in s ==> Split(s) == [s]
    ensures Lines(s) == [] <==> NEWLINE !in s
  {
    if s != [] {
      TailFacts(s[1..]);
      assert s == [s[0]] + s[1..];
      assert EndsWithNewline(s) <==> (if s[1..] == [] then s[0] == NEWLINE else EndsWithNewline(s[1..]));
    }
  }

  // ---- Chunks

  /** Where the part of `buf` up to and including its last newline ends; 0 if there is no newline. */
  function Cutoff(buf: Bytes): (n: nat)
    ensures n <= |buf|
    ensures n > 0 ==> EndsWithNewline(buf[..n])
    ensures NEWLINE !in buf[n..]
  {
    if buf == [] then 0
    else if buf[|buf| - 1] == NEWLINE then |buf|
    else
      var n := Cutoff(buf[..|buf| - 1]);
      assert buf[n..] == buf[..|buf| - 1][n..] + [buf[|buf| - 1]];
      assert n > 0 ==> buf[..n] == buf[..|buf| - 1][..n];
      n
  }

  function Min(a: nat, b: nat): nat {
    if a <= b then a else b
  }

  /** The chunks; or the number of the one without a line break. */
  function ChunksOf(rest: Bytes, size: nat): Result<seq<Bytes>, nat>
    decreases |rest|
  {
    if rest == [] then Success([])
    else
      var n := Cutoff(rest[..Min(size, |rest|)]);
      if n == 0 then Failure(0)
      else
        Before(rest[..n], ChunksOf(rest[n..], size))
  }

  /** One more chunk in front. */
  function Before(chunk: Bytes, r: Result<seq<Bytes>, nat>): Result<seq<Bytes>, nat> {
    match r
    case Success(chunks) => Success([chunk] + chunks)
    case Failure(i) => Failure(i + 1)
  }

  function Concat(chunks: seq<Bytes>): Bytes {
    if chunks == [] then [] else chunks[0] + Concat(chunks[1..])
  }

  /** The chunks make up the input, fit the size, and end where lines end. */
  lemma {:induction false} ChunksPartition(rest: Bytes, size: nat)
    requires ChunksOf(rest, size).Success?
    ensures
      var chunks := ChunksOf(rest, size).value;
      Concat(chunks) == rest
      && forall i :: 0 <= i < |chunks| ==> EndsWithNewline(chunks[i]) && |chunks[i]| <= size
    decreases |rest|
  {
    if rest != [] {
      var n := Cutoff(rest[..Min(size, |rest|)]);
      assert rest[..Min(size, |rest|)][..n] == rest[..n];
      ChunksPartition(rest[n..], size);
      assert rest == rest[..n] + rest[n..];
    }
  }

  ghost predicate LinesFit(s: Bytes, size: nat) {
    Tail(s) == [] && forall i :: 0 <= i < |Lines(s)| ==> |Lines(s)[i]| < size
  }

  lemma LinesFitAppend(a: Bytes, b: Bytes, size: nat)
    requires EndsWithNewline(a) && |a| <= size
    ensures LinesFit(a + b, size) <==> LinesFit(b, size)
  {
    LinesAppend(a, b);
    LinesAreShorter(a);
    var la, lb := Lines(a), Lines(b);
    assert forall i :: 0 <= i < |lb| ==> (la + lb)[|la| + i] == lb[i];
  }

  lemma NoBreakMeansTooLong(rest: Bytes, m: nat)
    requires 0 < |rest| && m <= |rest| && NEWLINE !in rest[..m]
    ensures LinesFit(rest, m) ==> false
    ensures m == |rest| ==> Tail(rest) != []
  {
    FirstLineTooLong(rest, m);
    TailFacts(rest);
    assert m == |rest| ==> rest[..m] == rest;
  }

  /** The input can be cut if and only if every line is ended, and fits a chunk with its line break. */
  lemma {:induction false} ChunkingSucceedsExactly(rest: Bytes, size: nat)
    ensures ChunksOf(rest, size).Success? <==> LinesFit(rest, size)
    decreases |rest|
  {
    if rest == [] {
      TailFacts(rest);
    } else {
      var m := Min(size, |rest|);
      var n := Cutoff(rest[..m]);
      if n == 0 {
        assert rest[..m][0..] == rest[..m];
        NoBreakMeansTooLong(rest, m);
      } else {
        assert rest[..m][..n] == rest[..n] && rest == rest[..n] + rest[n..];
        LinesFitAppend(rest[..n], rest[n..], size);
        ChunkingSucceedsExactly(rest[n..], size);
      }
    }
  }

  lemma LinesAreShorter(s: Bytes)
    ensures forall i :: 0 <= i < |Lines(s)| ==> |Lines(s)[i]| < |s|
    ensures |Tail(s)| <= |s|
  {
    SplitLength(s);
    forall i | 0 <= i < |Split(s)| { PieceBound(Split(s), i); }
  }

  lemma {:induction false} PieceBound(pieces: seq<Bytes>, i: nat)
    requires i < |pieces|
    ensures |pieces[i]| + |pieces| <= Total(pieces)
  {
    if i > 0 {
      PieceBound(pieces[1..], i - 1);
    } else if |pieces| > 1 {
      PieceBound(pieces[1..], 0);
    }
  }

  /** Without a newline among the first `m` bytes the first line has at least `m` bytes. */
  lemma {:induction false} FirstLineTooLong(s: Bytes, m: nat)
    requires m <= |s| && NEWLINE !in s[..m]
    ensures |Split(s)[0]| >= m
  {
    if m > 0 {
      assert s[..m][0] == s[0];
      assert s[1..][..m - 1] == s[..m][1..];
      FirstLineTooLong(s[1..], m - 1);
    }
  }

  // ---- Decoding

  /** The messages; or the number, from 1, of the first line that cannot be decoded. */
  function DecodeLines(lines: seq<Bytes>, decode: Decoder): Result<seq<LogMessage>, nat> {
    if lines == [] then Success([])
    else if decode(lines[0]).None? then Failure(1)
    else
      match DecodeLines(lines[1..], decode)
      case Success(messages) => Success([decode(lines[0]).value] + messages)
      case Failure(k) => Failure(k + 1)
  }

  /**
   Decoding succeeds exactly if every line can be decoded, and then gives each line's message in order; else
   it tells the first line that cannot be.
   */
  lemma {:induction false} DecodedIsEach(lines: seq<Bytes>, decode: Decoder)
    ensures
      match DecodeLines(lines, decode)
      case Success(messages) =>
        && |messages| == |lines|
        && forall i :: 0 <= i < |lines| ==> decode(lines[i]) == Some(messages[i])
      case Failure(k) =>
        && 1 <= k <= |lines| && decode(lines[k - 1]).None?
        && forall i :: 0 <= i < k - 1 ==> decode(lines[i]).Some?
  {
    if lines != [] && decode(lines[0]).Some? {
      var rest := lines[1..];
      DecodedIsEach(rest, decode);
      assert forall i :: 0 < i < |lines| ==> lines[i] == rest[i - 1];
    }
  }

  lemma {:induction false} DecodeAppend(a: seq<Bytes>, b: seq<Bytes>, decode: Decoder)
    ensures
      var ra, rb := DecodeLines(a, decode), DecodeLines(b, decode);
      DecodeLines(a + b, decode)
      == if ra.Failure? then ra
         else if rb.Failure? then Failure(|a| + rb.error)
         else Success(ra.value + rb.value)
  {
    if a == [] {
      assert a + b == b;
      if DecodeLines(b, decode).Success? {
        assert [] + DecodeLines(b, decode).value == DecodeLines(b, decode).value;
      }
    } else {
      assert (a + b)[1..] == a[1..] + b && (a + b)[0] == a[0];
      DecodeAppend(a[1..], b, decode);
      var ra, rb := DecodeLines(a[1..], decode), DecodeLines(b, decode);
      if decode(a[0]).Some? && ra.Success? && rb.Success? {
        assert [decode(a[0]).value] + (ra.value + rb.value) == ([decode(a[0]).value] + ra.value) + rb.value;
      }
    }
  }

  lemma {:induction false} DecodeSame(a: seq<Bytes>, b: seq<Bytes>, decode: Decoder)
    requires |a| == |b| && forall i :: 0 <= i < |a| ==> decode(a[i]) == decode(b[i])
    ensures DecodeLines(a, decode) == DecodeLines(b, decode)
  {
    if a != [] {
      DecodeSame(a[1..], b[1..], decode);
    }
  }

  /** How a task decodes its chunk. */
  function DecodeChunk(chunk: Bytes, decode: Decoder): Result<seq<LogMessage>, nat> {
    DecodeLines(Split(TrimEnd(chunk)), decode)
  }

  /** A line has something on it, and the decoder does not mind white space at its end. */
  predicate Tidy(line: Bytes, decode: Decoder) {
    TrimEnd(line) != [] && decode(TrimEnd(line)) == decode(line)
  }

  lemma {:induction false} TrimEndAppend(a: Bytes, b: Bytes)
    ensures TrimEnd(a + b) == if TrimEnd(b) == [] then TrimEnd(a) else a + TrimEnd(b)
  {
    if b == [] {
      assert a + b == a;
    } else {
      assert (a + b)[..|a + b| - 1] == a + b[..|b| - 1];
      if IsAsciiWhitespace(b[|b| - 1]) {
        TrimEndAppend(a, b[..|b| - 1]);
      }
    }
  }

  /** What is trimmed are tabs, line feeds, form feeds, carriage returns and spaces, up to anything else. */
  lemma TrimsAsciiWhitespace(s: Bytes, b: byte)
    ensures TrimEnd(s + [b]) == if b in {9, 10, 12, 13, 32} then TrimEnd(s) else s + [b]
  {
    assert (s + [b])[..|s|] == s;
  }

  lemma SplitUnended(p: Bytes, x: Bytes)
    requires (p == [] || EndsWithNewline(p)) && NEWLINE !in x
    ensures Split(p + x) == Lines(p) + [x]
  {
    TailFacts(x);
    if p == [] {
      assert p + x == x;
    } else {
      LinesAppend(p, x);
      LinesAndTail(p + x);
      assert Lines(p) + [] == Lines(p);
    }
  }

  lemma LinesAndTail(s: Bytes)
    ensures Split(s) == Lines(s) + [Tail(s)]
  {
  }

  /** A chunk, seen as its last line and what is before that. */
  lemma LastLine(chunk: Bytes) returns (p: Bytes, last: Bytes)
    requires EndsWithNewline(chunk)
    ensures chunk == (p + last) + [NEWLINE] && (p == [] || EndsWithNewline(p)) && NEWLINE !in last
    ensures Lines(chunk) == Lines(p) + [last]
  {
    var front := chunk[..|chunk| - 1];
    var n := Cutoff(front);
    p, last := front[..n], front[n..];
    assert front == p + last && chunk == front + [NEWLINE] + [];
    SplitUnended(p, last);
    SplitAppend(front, []);
  }

  lemma TrimmedChunk(p: Bytes, last: Bytes)
    requires TrimEnd(last) != []
    ensures TrimEnd((p + last) + [NEWLINE]) == p + TrimEnd(last)
  {
    TrimEndAppend(p, last);
    TrimEndAppend(p + last, [NEWLINE]);
    assert TrimEnd([NEWLINE]) == TrimEnd([]);
  }

  /** For tidy lines a task decodes exactly the lines of its chunk. */
  lemma ChunkDecodesItsLines(chunk: Bytes, decode: Decoder)
    requires EndsWithNewline(chunk)
    requires forall i :: 0 <= i < |Lines(chunk)| ==> Tidy(Lines(chunk)[i], decode)
    ensures DecodeChunk(chunk, decode) == DecodeLines(Lines(chunk), decode)
  {
    var p, last := LastLine(chunk);
    assert Lines(chunk)[|Lines(p)|] == last;
    TrimmedChunk(p, last);
    TrimEndIsPrefix(last);
    SplitUnended(p, TrimEnd(last));
    DecodeSame(Lines(p) + [TrimEnd(last)], Lines(p) + [last], decode);
  }

  lemma {:induction false} TrimEndIsPrefix(s: Bytes)
    ensures TrimEnd(s) <= s
  {
    if s != [] && IsAsciiWhitespace(s[|s| - 1]) {
      TrimEndIsPrefix(s[..|s| - 1]);
    }
  }

  // ---- Putting the chunks together

  type ChunkResult = Result<seq<LogMessage>, nat>

  /** The messages chunk by chunk; or the first chunk with a line that cannot be decoded, and which line. */
  function Collect(results: seq<ChunkResult>): Result<seq<seq<LogMessage>>, (nat, nat)> {
    if results == [] then Success([])
    else if results[0].Failure? then Failure((0, results[0].error))
    else CollectOne(results[0].value, Collect(results[1..]))
  }

  type Collected = Result<seq<seq<LogMessage>>, (nat, nat)>

  /** The messages of one more chunk in front. */
  function CollectOne(first: seq<LogMessage>, r: Collected): Collected {
    match r
    case Success(messages) => Success([first] + messages)
    case Failure((i, k)) => Failure((i + 1, k))
  }

  function DecodeAll(chunks: seq<Bytes>, decode: Decoder): (r: seq<ChunkResult>)
    ensures |r| == |chunks| && forall i :: 0 <= i < |r| ==> r[i] == DecodeChunk(chunks[i], decode)
  {
    if chunks == [] then [] else [DecodeChunk(chunks[0], decode)] + DecodeAll(chunks[1..], decode)
  }

  function Flatten(messages: seq<seq<LogMessage>>): seq<LogMessage> {
    if messages == [] then [] else messages[0] + Flatten(messages[1..])
  }

  function LinesBefore(chunks: seq<Bytes>, i: nat): nat
    requires i <= |chunks|
  {
    if i == 0 then 0 else |Lines(chunks[0])| + LinesBefore(chunks[1..], i - 1)
  }

  ghost predicate AllTidy(s: Bytes, decode: Decoder) {
    forall i :: 0 <= i < |Lines(s)| ==> Tidy(Lines(s)[i], decode)
  }

  lemma AllTidyParts(a: Bytes, b: Bytes, decode: Decoder)
    requires EndsWithNewline(a) && AllTidy(a + b, decode)
    ensures AllTidy(a, decode) && AllTidy(b, decode)
  {
    LinesAppend(a, b);
    var la, lb := Lines(a), Lines(b);
    assert forall i :: 0 <= i < |la| ==> (la + lb)[i] == la[i];
    assert forall i :: 0 <= i < |lb| ==> (la + lb)[|la| + i] == lb[i];
  }

  /** What the chunks found, as decoding their lines one after the other would have found it. */
  function Unchunked(chunks: seq<Bytes>, r: Result<seq<seq<LogMessage>>, (nat, nat)>): Result<seq<LogMessage>, nat>
    requires r.Failure? ==> r.error.0 <= |chunks|
  {
    match r
    case Success(messages) => Success(Flatten(messages))
    case Failure((i, k)) => Failure(LinesBefore(chunks, i) + k)
  }

  /** Decoding one part of the lines after the other. */
  function Then(lines: nat, first: ChunkResult, r: Result<seq<LogMessage>, nat>): Result<seq<LogMessage>, nat> {
    if first.Failure? then first
    else if r.Failure? then Failure(lines + r.error)
    else Success(first.value + r.value)
  }

  lemma UnchunkedStep(c: Bytes, rest: seq<Bytes>, first: ChunkResult, r: Collected)
    requires r.Failure? ==> r.error.0 < |rest|
    ensures
      var all := if first.Failure? then Failure((0, first.error)) else CollectOne(first.value, r);
      && (all.Failure? ==> all.error.0 < |[c] + rest|)
      && Unchunked([c] + rest, all) == Then(|Lines(c)|, first, Unchunked(rest, r))
  {
    assert ([c] + rest)[1..] == rest;
    if r.Success? && first.Success? {
      assert ([first.value] + r.value)[1..] == r.value;
    }
  }

  /** Decoding in chunks finds the same messages as decoding line by line, or the same first bad line. */
  lemma {:induction false} ChunkedIsLineByLine(chunks: seq<Bytes>, decode: Decoder)
    requires forall i :: 0 <= i < |chunks| ==> EndsWithNewline(chunks[i])
    requires AllTidy(Concat(chunks), decode)
    ensures
      var r := Collect(DecodeAll(chunks, decode));
      && (r.Failure? ==> r.error.0 < |chunks|)
      && DecodeLines(Lines(Concat(chunks)), decode) == Unchunked(chunks, r)
  {
    if chunks != [] {
      var c, rest := chunks[0], chunks[1..];
      ChunkDecodesInFront(c, Concat(rest), decode);
      AllTidyParts(c, Concat(rest), decode);
      ChunkedIsLineByLine(rest, decode);
      UnchunkedStep(c, rest, DecodeChunk(c, decode), Collect(DecodeAll(rest, decode)));
      assert DecodeAll(chunks, decode)[1..] == DecodeAll(rest, decode);
      assert chunks == [c] + rest;
    }
  }

  lemma ChunkDecodesInFront(c: Bytes, rest: Bytes, decode: Decoder)
    requires EndsWithNewline(c) && AllTidy(c + rest, decode)
    ensures DecodeLines(Lines(c + rest), decode)
         == Then(|Lines(c)|, DecodeChunk(c, decode), DecodeLines(Lines(rest), decode))
  {
    AllTidyParts(c, rest, decode);
    LinesAppend(c, rest);
    ChunkDecodesItsLines(c, decode);
    DecodeAppend(Lines(c), Lines(rest), decode);
  }

  // ---- The whole file

  datatype ReadError =
    | CannotParse(line: nat)
    | NotStart
    | MissingSecond
    | NotMetadata
    | MissingLineBreak(chunk: nat)
    | InChunk(chunk: nat, line: nat)
    | NoResult(chunk: nat)
    | NoData
    | EmptyLastChunk
    | CutOff

  datatype LogFile = LogFile(messages: seq<seq<LogMessage>>, version: nat, metadata: string)

  /** `Panicked` is the slice index beyond the end of the input. */
  datatype Outcome = Read(file: LogFile) | Failed(error: ReadError) | Panicked

  function Finish(messages: seq<seq<LogMessage>>, version: nat, metadata: string): Outcome {
    if messages == [] then Failed(NoData)
    else
      var last := messages[|messages| - 1];
      if last == [] then Failed(EmptyLastChunk)
      else if last[|last| - 1].TEnd? then Read(LogFile(messages, version, metadata))
      else Failed(CutOff)
  }

  function ReadBody(body: Bytes, decode: Decoder, size: nat, version: nat, metadata: string): Outcome {
    match ChunksOf(body, size)
    case Failure(i) => Failed(MissingLineBreak(i))
    case Success(chunks) =>
      match Collect(DecodeAll(chunks, decode))
      case Failure((i, k)) => Failed(InChunk(i, k))
      case Success(messages) => Finish(messages, version, metadata)
  }

  function ReadSpec(input: Bytes, decode: Decoder, size: nat): Outcome {
    var lines := Split(input);
    var first := decode(lines[0]);
    if first.None? then Failed(CannotParse(1))
    else if !first.value.Start? then Failed(NotStart)
    else if |lines| < 2 then Failed(MissingSecond)
    else
      var second := decode(lines[1]);
      if second.None? then Failed(CannotParse(2))
      else if !second.value.Metadata? then Failed(NotMetadata)
      else
        var bytepos := |lines[0]| + 1 + |lines[1]| + 1;
        if bytepos > |input| then Panicked
        else ReadBody(input[bytepos..], decode, size, first.value.version, second.value.info)
  }

  lemma {:induction false} CollectedAreThere(results: seq<ChunkResult>)
    requires Collect(results).Success?
    ensures |Collect(results).value| == |results|
    ensures forall i :: 0 <= i < |results| ==> results[i] == Success(Collect(results).value[i])
  {
    if results != [] {
      CollectedAreThere(results[1..]);
    }
  }

  lemma DecodedIsNotEmpty(lines: seq<Bytes>, decode: Decoder)
    requires lines != []
    ensures DecodeLines(lines, decode).Success? ==> DecodeLines(lines, decode).value != []
  {
  }

  lemma FinishOf(messages: seq<seq<LogMessage>>, version: nat, metadata: string)
    requires messages != [] ==> messages[|messages| - 1] != []
    ensures
      var all := Flatten(messages);
      Finish(messages, version, metadata)
      == if all == [] then Failed(NoData)
         else if all[|all| - 1].TEnd? then Read(LogFile(messages, version, metadata))
         else Failed(CutOff)
  {
    if messages != [] {
      FlattenLast(messages);
    }
  }

  lemma FinishChecksEndMark(chunks: seq<Bytes>, decode: Decoder, version: nat, metadata: string)
    requires Collect(DecodeAll(chunks, decode)).Success?
    ensures
      var messages := Collect(DecodeAll(chunks, decode)).value;
      var all := Flatten(messages);
      Finish(messages, version, metadata)
      == if all == [] then Failed(NoData)
         else if all[|all| - 1].TEnd? then Read(LogFile(messages, version, metadata))
         else Failed(CutOff)
  {
    var results := DecodeAll(chunks, decode);
    var messages := Collect(results).value;
    CollectedAreThere(results);
    if messages != [] {
      var n := |messages| - 1;
      assert results[n] == Success(messages[n]);
      DecodedIsNotEmpty(Split(TrimEnd(chunks[n])), decode);
    }
    FinishOf(messages, version, metadata);
  }

  /** What reading answers, said of the messages that decoding line by line finds. */
  ghost predicate AnswersFor(
      all: Result<seq<LogMessage>, nat>, outcome: Outcome, body: Bytes, size: nat, version: nat, metadata: string)
  {
    match outcome
    case Read(file) =>
      && all == Success(Flatten(file.messages)) && all.value != [] && all.value[|all.value| - 1].TEnd?
      && file.version == version && file.metadata == metadata
    case Failed(NoData) => all == Success([])
    case Failed(CutOff) => all.Success? && all.value != [] && !all.value[|all.value| - 1].TEnd?
    case Failed(InChunk(i, k)) =>
      && ChunksOf(body, size).Success? && i < |ChunksOf(body, size).value|
      && all == Failure(LinesBefore(ChunksOf(body, size).value, i) + k)
    case _ => false
  }

  /**
   A file whose lines after the header fit the chunk size and are tidy is read as if it were decoded line
   by line, with the last message required to be the end mark; no other error can come up.
   */
  lemma ReadingIsLineByLine(body: Bytes, decode: Decoder, size: nat, version: nat, metadata: string)
    requires LinesFit(body, size) && AllTidy(body, decode)
    ensures AnswersFor(DecodeLines(Lines(body), decode), ReadBody(body, decode, size, version, metadata),
                       body, size, version, metadata)
  {
    BodyIsLineByLine(body, decode, size);
    var chunks := ChunksOf(body, size).value;
    if Collect(DecodeAll(chunks, decode)).Success? {
      FinishChecksEndMark(chunks, decode, version, metadata);
    }
  }

  /** A line at the start of a file, and what follows its newline, if there is one. */
  function Continued(line: Bytes, rest: Option<Bytes>): Bytes {
    if rest.None? then line else line + [NEWLINE] + rest.value
  }

  lemma FirstLine(line: Bytes, rest: Option<Bytes>)
    requires NEWLINE !in line
    ensures Split(Continued(line, rest)) == [line] + (if rest.None? then [] else Split(rest.value))
  {
    TailFacts(line);
    if rest.Some? {
      SplitAppend(line, rest.value);
    }
  }

  /** The first line must be there, be decoded, and be the start; and a second line must follow. */
  lemma FirstLineIsChecked(a: Bytes, rest: Option<Bytes>, decode: Decoder, size: nat)
    requires NEWLINE !in a
    ensures
      var r := ReadSpec(Continued(a, rest), decode, size);
      && (decode(a).None? ==> r == Failed(CannotParse(1)))
      && (decode(a).Some? && !decode(a).value.Start? ==> r == Failed(NotStart))
      && (decode(a).Some? && decode(a).value.Start? && rest.None? ==> r == Failed(MissingSecond))
  {
    FirstLine(a, rest);
  }

  lemma HeaderLines(a: Bytes, b: Bytes, rest: Option<Bytes>)
    requires NEWLINE !in a && NEWLINE !in b
    ensures
      var input := Continued(a, Some(Continued(b, rest)));
      && |Split(input)| >= 2 && Split(input)[0] == a && Split(input)[1] == b
      && (rest.None? ==> |a| + 1 + |b| + 1 > |input|)
      && (rest.Some? ==> |a| + 1 + |b| + 1 <= |input| && input[|a| + 1 + |b| + 1..] == rest.value)
  {
    FirstLine(a, Some(Continued(b, rest)));
    FirstLine(b, rest);
  }

  /** What is answered for the second line of a file, and for what is behind it. */
  lemma SecondLineOf(input: Bytes, a: Bytes, b: Bytes, decode: Decoder, size: nat)
    requires |Split(input)| >= 2 && Split(input)[0] == a && Split(input)[1] == b
    requires decode(a).Some? && decode(a).value.Start?
    ensures
      var r, start := ReadSpec(input, decode, size), |a| + 1 + |b| + 1;
      if decode(b).None? then r == Failed(CannotParse(2))
      else if !decode(b).value.Metadata? then r == Failed(NotMetadata)
      else if start > |input| then r == Panicked
      else r == ReadBody(input[start..], decode, size, decode(a).value.version, decode(b).value.info)
  {
  }

  /** The second line must be decoded and be the metadata; the body is behind its newline, which must be there. */
  lemma SecondLineIsChecked(a: Bytes, b: Bytes, rest: Option<Bytes>, decode: Decoder, size: nat)
    requires NEWLINE !in a && NEWLINE !in b && decode(a).Some? && decode(a).value.Start?
    ensures
      var r := ReadSpec(Continued(a, Some(Continued(b, rest))), decode, size);
      && (decode(b).None? ==> r == Failed(CannotParse(2)))
      && (decode(b).Some? && !decode(b).value.Metadata? ==> r == Failed(NotMetadata))
      && (decode(b).Some? && decode(b).value.Metadata? ==>
            r == if rest.None? then Panicked
                 else ReadBody(rest.value, decode, size, decode(a).value.version, decode(b).value.info))
  {
    HeaderLines(a, b, rest);
    SecondLineOf(Continued(a, Some(Continued(b, rest))), a, b, decode, size);
  }

  /**
   A file is its two header lines and a body. If the lines of the body fit and are tidy, the answer is that
   for decoding them line by line, with the version of the first and the metadata of the second line; if
   they do not fit, it is that a line break is missing.
   */
  lemma FileIsReadLineByLine(a: Bytes, b: Bytes, body: Bytes, decode: Decoder, size: nat, version: nat, info: string)
    requires NEWLINE !in a && decode(a) == Some(Start(version))
    requires NEWLINE !in b && decode(b) == Some(Metadata(info))
    ensures
      var r := ReadSpec(a + [NEWLINE] + (b + [NEWLINE] + body), decode, size);
      && (LinesFit(body, size) && AllTidy(body, decode) ==>
            AnswersFor(DecodeLines(Lines(body), decode), r, body, size, version, info))
      && (!LinesFit(body, size) <==> r.Failed? && r.error.MissingLineBreak?)
  {
    SecondLineIsChecked(a, b, Some(body), decode, size);
    ChunkingSucceedsExactly(body, size);
    if LinesFit(body, size) && AllTidy(body, decode) {
      ReadingIsLineByLine(body, decode, size, version, info);
    }
  }

  /** A part that ends with a newline, where there is none in the first `k` bytes. */
  lemma FirstLineIsLong(next: Bytes, part: Bytes, k: nat)
    requires part <= next && EndsWithNewline(part) && k <= |next| && NEWLINE !in next[..k]
    ensures Lines(part) != [] && |Lines(part)[0]| >= k
  {
    assert part[|part| - 1] == next[|part| - 1] == NEWLINE;
    assert part[..k] == next[..k];
    TailFacts(part);
    FirstLineTooLong(part, k);
  }

  /** Behind the cutoff of a full buffer the next line does not end within the buffer. */
  lemma NextDoesNotFit(rest: Bytes, size: nat, part: Bytes)
    requires var n := Cutoff(rest[..Min(size, |rest|)]); part <= rest[n..] && EndsWithNewline(part)
    ensures var n := Cutoff(rest[..Min(size, |rest|)]);
      Lines(part) != [] && n + |Lines(part)[0]| + 1 > size
  {
    var m := Min(size, |rest|);
    var n := Cutoff(rest[..m]);
    assert rest[..m][n..] == rest[n..][..m - n];
    FirstLineIsLong(rest[n..], part, m - n);
  }

  /** A chunk is as long as it can be: the next line would not have fitted any more. */
  lemma {:induction false} ChunksAreLongest(rest: Bytes, size: nat, i: nat)
    requires ChunksOf(rest, size).Success? && i + 1 < |ChunksOf(rest, size).value|
    ensures
      var chunks := ChunksOf(rest, size).value;
      Lines(chunks[i + 1]) != [] && |chunks[i]| + |Lines(chunks[i + 1])[0]| + 1 > size
    decreases |rest|
  {
    var n := Cutoff(rest[..Min(size, |rest|)]);
    var next := rest[n..];
    if i > 0 {
      ChunksAreLongest(next, size, i - 1);
    } else {
      var m := Min(size, |next|);
      assert next[..m][..Cutoff(next[..m])] == next[..Cutoff(next[..m])];
      NextDoesNotFit(rest, size, next[..Cutoff(next[..m])]);
    }
  }

  lemma BodyIsLineByLine(body: Bytes, decode: Decoder, size: nat)
    requires LinesFit(body, size) && AllTidy(body, decode)
    ensures ChunksOf(body, size).Success?
    ensures
      var chunks := ChunksOf(body, size).value;
      var r := Collect(DecodeAll(chunks, decode));
      (r.Failure? ==> r.error.0 < |chunks|) && DecodeLines(Lines(body), decode) == Unchunked(chunks, r)
  {
    ChunkingSucceedsExactly(body, size);
    ChunksPartition(body, size);
    ChunkedIsLineByLine(ChunksOf(body, size).value, decode);
  }

  lemma {:induction false} FlattenLast(messages: seq<seq<LogMessage>>)
    requires messages != [] && messages[|messages| - 1] != []
    ensures
      var all, last := Flatten(messages), messages[|messages| - 1];
      all != [] && all[|all| - 1] == last[|last| - 1]
  {
    if |messages| > 1 {
      FlattenLast(messages[1..]);
    }
  }

  /** Reading panics exactly if the two header lines are right and no newline follows the second one. */
  lemma PanicsExactlyWithoutThirdPiece(input: Bytes, decode: Decoder, size: nat)
    ensures ReadSpec(input, decode, size).Panicked? <==>
      var lines := Split(input);
      && |lines| == 2
      && decode(lines[0]).Some? && decode(lines[0]).value.Start?
      && decode(lines[1]).Some? && decode(lines[1]).value.Metadata?
  {
    var lines := Split(input);
    SplitLength(input);
    if |lines| >= 2 {
      PiecesSum(lines);
    }
  }

  function Total(lines: seq<Bytes>): nat {
    if lines == [] then 0 else |lines[0]| + 1 + Total(lines[1..])
  }

  lemma {:induction false} SplitLength(s: Bytes)
    ensures Total(Split(s)) == |s| + 1
  {
    if s != [] {
      SplitLength(s[1..]);
      var r := Split(s[1..]);
      assert s[0] == NEWLINE ==> ([[]] + r)[1..] == r;
      assert ([[s[0]] + r[0]] + r[1..])[1..] == r[1..];
    }
  }

  lemma PiecesSum(lines: seq<Bytes>)
    requires |lines| >= 2
    ensures Total(lines) == |lines[0]| + 1 + |lines[1]| + 1 + Total(lines[2..])
    ensures Total(lines[2..]) == 0 <==> |lines| == 2
  {
    assert lines[1..][1..] == lines[2..];
  }

  // ---- The program

  /** A vector that grows to hold the slot asked for. */
  class AutoVivify<T> {
    var items: seq<T>

    constructor ()
      ensures items == []
    {
      items := [];
    }

    /** Makes sure that there is a slot `i`. */
    method AutoGetMut(i: nat, genVal: T)
      modifies this
      ensures |items| == if i < |old(items)| then |old(items)| else i + 1
      ensures forall k :: 0 <= k < |items| ==> items[k] == if k < |old(items)| then old(items)[k] else genVal
    {
      if i >= |items| {
        items := items + seq(i + 1 - |items|, _ => genVal);
      }
    }

    method Set(i: nat, val: T, genVal: T)
      modifies this
      ensures |items| == if i < |old(items)| then |old(items)| else i + 1
      ensures forall k :: 0 <= k < |items| ==>
        items[k] == if k == i then val else if k < |old(items)| then old(items)[k] else genVal
    {
      AutoGetMut(i, genVal);
      items := items[i := val];
    }
  }

  /** The order in which the tasks come to report: each reports, and nobody else does. */
  ghost predicate IsCompletionOrder(order: seq<nat>, n: nat) {
    && (forall k :: 0 <= k < |order| ==> order[k] < n)
    && (forall i :: 0 <= i < n ==> i in order)
  }

  /** What cutting gives that has cut off `chunks` and still has to cut the rest. */
  function Resume(chunks: seq<Bytes>, r: Result<seq<Bytes>, nat>): Result<seq<Bytes>, nat> {
    match r
    case Success(more) => Success(chunks + more)
    case Failure(i) => Failure(|chunks| + i)
  }

  lemma ResumeOne(chunks: seq<Bytes>, chunk: Bytes, r: Result<seq<Bytes>, nat>)
    ensures Resume(chunks, Before(chunk, r)) == Resume(chunks + [chunk], r)
  {
    if r.Success? {
      Associate(chunks, [chunk], r.value);
    }
  }

  /** Cuts the input into chunks. */
  method CutIntoChunks(input: Bytes, size: nat) returns (r: Result<seq<Bytes>, nat>)
    ensures r == ChunksOf(input, size)
  {
    var rest := input;
    var chunks: seq<Bytes> := [];
    if ChunksOf(input, size).Success? {
      AppendNothing(ChunksOf(input, size).value);
    }
    while rest != []
      invariant ChunksOf(input, size) == Resume(chunks, ChunksOf(rest, size))
      decreases |rest|
    {
      var buf := rest[..Min(size, |rest|)];
      var cutoff := Cutoff(buf);
      if cutoff == 0 {
        return Failure(|chunks|);
      }
      assert buf[..cutoff] == rest[..cutoff];
      ResumeOne(chunks, rest[..cutoff], ChunksOf(rest[cutoff..], size));
      chunks := chunks + [buf[..cutoff]];
      rest := rest[cutoff..];
    }
    AppendNothing(chunks);
    return Success(chunks);
  }

  /** Every task puts its result into its slot, in the given order. */
  method RunTasks(chunks: seq<Bytes>, decode: Decoder, order: seq<nat>) returns (results: seq<Option<ChunkResult>>)
    requires IsCompletionOrder(order, |chunks|)
    ensures |results| == |chunks|
    ensures forall i :: 0 <= i < |chunks| ==> results[i] == Some(DecodeChunk(chunks[i], decode))
  {
    var vector := new AutoVivify<Option<ChunkResult>>();
    for k := 0 to |order|
      invariant |vector.items| <= |chunks|
      invariant forall j :: 0 <= j < k ==> order[j] < |vector.items|
      invariant forall i :: 0 <= i < |vector.items| ==>
        vector.items[i] == if i in order[..k] then Some(DecodeChunk(chunks[i], decode)) else None
    {
      assert order[..k + 1] == order[..k] + [order[k]];
      vector.Set(order[k], Some(DecodeChunk(chunks[order[k]], decode)), None);
    }
    results := vector.items;
    assert order[..|order|] == order;
    if chunks != [] {
      assert |chunks| - 1 in order;
    }
  }

  /** The results in the slots from slot `i` on; or the first slot that has none, or has an error. */
  function Gather(slots: seq<Option<ChunkResult>>, i: nat): Result<seq<seq<LogMessage>>, ReadError>
    requires i <= |slots|
    decreases |slots| - i
  {
    if i == |slots| then Success([])
    else
      match slots[i]
      case None => Failure(NoResult(i))
      case Some(Failure(k)) => Failure(InChunk(i, k))
      case Some(Success(m)) =>
        var more := Gather(slots, i + 1);
        if more.Failure? then more else Success([m] + more.value)
  }

  lemma {:induction false} GatherIsCollect(slots: seq<Option<ChunkResult>>, rs: seq<ChunkResult>, i: nat)
    requires i <= |slots| == |rs| && forall k :: 0 <= k < |rs| ==> slots[k] == Some(rs[k])
    ensures Gather(slots, i) == match Collect(rs[i..])
                                case Success(messages) => Success(messages)
                                case Failure((j, k)) => Failure(InChunk(i + j, k))
    decreases |slots| - i
  {
    if i < |slots| {
      assert rs[i..][1..] == rs[i + 1..];
      GatherIsCollect(slots, rs, i + 1);
    }
  }

  method CollectResults(slots: seq<Option<ChunkResult>>) returns (r: Result<seq<seq<LogMessage>>, ReadError>)
    ensures r == Gather(slots, 0)
  {
    var messages: seq<seq<LogMessage>> := [];
    if Gather(slots, 0).Success? {
      AppendNothing(Gather(slots, 0).value);
    }
    for i := 0 to |slots|
      invariant Gather(slots, 0) == (if Gather(slots, i).Failure? then Gather(slots, i)
                                     else Success(messages + Gather(slots, i).value))
    {
      match slots[i] {
        case None => return Failure(NoResult(i));
        case Some(Failure(k)) => return Failure(InChunk(i, k));
        case Some(Success(m)) =>
          if Gather(slots, i + 1).Success? {
            Associate(messages, [m], Gather(slots, i + 1).value);
          }
          messages := messages + [m];
      }
    }
    AppendNothing(messages);
    return Success(messages);
  }

  /** `schedule` gives the order in which so many tasks complete; the outcome does not depend on it. */
  method ReadFile(input: Bytes, decode: Decoder, size: nat, schedule: nat -> seq<nat>) returns (r: Outcome)
    requires forall n :: IsCompletionOrder(schedule(n), n)
    ensures r == ReadSpec(input, decode, size)
  {
    var lines := Split(input);
    var first := decode(lines[0]);
    if first.None? {
      return Failed(CannotParse(1));
    }
    if !first.value.Start? {
      return Failed(NotStart);
    }
    if |lines| < 2 {
      return Failed(MissingSecond);
    }
    var second := decode(lines[1]);
    if second.None? {
      return Failed(CannotParse(2));
    }
    if !second.value.Metadata? {
      return Failed(NotMetadata);
    }
    var bytepos := |lines[0]| + 1 + |lines[1]| + 1;
    if bytepos > |input| {
      return Panicked;
    }
    var chunks := CutIntoChunks(input[bytepos..], size);
    if chunks.Failure? {
      return Failed(MissingLineBreak(chunks.error));
    }
    var results := RunTasks(chunks.value, decode, schedule(|chunks.value|));
    var messages := CollectResults(results);
    GatherIsCollect(results, DecodeAll(chunks.value, decode), 0);
    assert DecodeAll(chunks.value, decode)[0..] == DecodeAll(chunks.value, decode);
    if messages.Failure? {
      return Failed(messages.error);
    }
    return Finish(messages.value, first.value.version, second.value.info);
  }
}
