/** Bounded line framing over a byte stream that arrives in arbitrary chunks.

    A line is either malformed, the awaited response, or something to skip; which one
    is a function `classify` of its bytes. */
module LineFraming {

  type Byte = nat

  const NEWLINE: Byte := 10
  const READ_SIZE := 4096

  datatype Line<T> = Malformed | Response(item: T) | Skip

  datatype Answer<T> = NoAnswer | Found(item: T) | MalformedResponse | OutputLimit

  /** The position of the first newline, or the length. */
  function LineEnd(s: seq<Byte>): (i: nat)
    ensures i <= |s| && (i < |s| ==> s[i] == NEWLINE) && forall j | 0 <= j < i :: s[j] != NEWLINE
  {
    if s == [] || s[0] == NEWLINE then 0 else 1 + LineEnd(s[1..])
  }

  /** The first decisive complete line of a stream read as a whole. */
  function Scan<T>(classify: seq<Byte> -> Line<T>, s: seq<Byte>): Answer<T>
    decreases |s|
  {
    var n := LineEnd(s);
    if n == |s| then NoAnswer
    else match classify(s[..n])
      case Malformed => MalformedResponse
      case Response(item) => Found(item)
      case Skip => Scan(classify, s[n + 1..])
  }

  /** What is left after the last complete line. */
  function Tail(s: seq<Byte>): seq<Byte>
    decreases |s|
  {
    var n := LineEnd(s);
    if n == |s| then s else Tail(s[n + 1..])
  }

  /** The complete lines of a stream, without their newlines. */
  function Lines(s: seq<Byte>): seq<seq<Byte>>
    decreases |s|
  {
    var n := LineEnd(s);
    if n == |s| then [] else [s[..n]] + Lines(s[n + 1..])
  }

  function Joined(lines: seq<seq<Byte>>): seq<Byte> {
    if lines == [] then [] else lines[0] + [NEWLINE] + Joined(lines[1..])
  }

  ghost predicate Rebuilt(s: seq<Byte>, lines: seq<seq<Byte>>, tail: seq<Byte>) {
    s == Joined(lines) + tail
  }

  lemma RebuiltStep(s: seq<Byte>, n: nat, lines: seq<seq<Byte>>, tail: seq<Byte>)
    requires n < |s| && s[n] == NEWLINE && Rebuilt(s[n + 1..], lines, tail)
    ensures Rebuilt(s, [s[..n]] + lines, tail)
  {
    assert ([s[..n]] + lines)[1..] == lines;
    assert s == s[..n] + [NEWLINE] + s[n + 1..];
  }

  /** Lines and tail rebuild the stream. */
  lemma {:induction false} SplitRebuilds(s: seq<Byte>)
    ensures Rebuilt(s, Lines(s), Tail(s))
    decreases |s|
  {
    var n := LineEnd(s);
    if n < |s| {
      SplitRebuilds(s[n + 1..]);
      RebuiltStep(s, n, Lines(s[n + 1..]), Tail(s[n + 1..]));
    }
  }

  lemma {:induction false} LinesHaveNoNewline(s: seq<Byte>)
    ensures NEWLINE !in Tail(s) && forall line | line in Lines(s) :: NEWLINE !in line
    decreases |s|
  {
    var n := LineEnd(s);
    if n < |s| { LinesHaveNoNewline(s[n + 1..]); }
  }

  /** The answer of the first line that is not skipped. */
  function FirstDecisive<T>(classify: seq<Byte> -> Line<T>, lines: seq<seq<Byte>>): Answer<T> {
    if lines == [] then NoAnswer
    else match classify(lines[0])
      case Malformed => MalformedResponse
      case Response(item) => Found(item)
      case Skip => FirstDecisive(classify, lines[1..])
  }

  /** Scanning a stream is splitting it at newlines and taking the first decisive line. */
  lemma {:induction false} ScanIsFirstDecisive<T>(classify: seq<Byte> -> Line<T>, s: seq<Byte>)
    ensures Scan(classify, s) == FirstDecisive(classify, Lines(s))
    decreases |s|
  {
    var n := LineEnd(s);
    if n < |s| {
      ScanIsFirstDecisive(classify, s[n + 1..]);
      assert Lines(s)[1..] == Lines(s[n + 1..]);
    }
  }

  lemma LineEndOfPrefix(a: seq<Byte>, b: seq<Byte>)
    requires LineEnd(a) < |a|
    ensures LineEnd(a + b) == LineEnd(a)
  {
    var i, j := LineEnd(a), LineEnd(a + b);
    assert (a + b)[i] == a[i];
    if j < i { assert (a + b)[j] == a[j]; }
  }

  /** Once a prefix has an answer, no continuation changes it. */
  lemma {:induction false} AnswerIsFinal<T>(classify: seq<Byte> -> Line<T>, a: seq<Byte>, b: seq<Byte>)
    requires Scan(classify, a) != NoAnswer
    ensures Scan(classify, a + b) == Scan(classify, a)
    decreases |a|
  {
    var n := LineEnd(a);
    LineEndOfPrefix(a, b);
    assert (a + b)[..n] == a[..n];
    if classify(a[..n]) == Skip {
      assert (a + b)[n + 1..] == a[n + 1..] + b;
      AnswerIsFinal(classify, a[n + 1..], b);
    }
  }

  /** A prefix without an answer can be forgotten, all but its unfinished line. */
  lemma {:induction false} ScanResumes<T>(classify: seq<Byte> -> Line<T>, a: seq<Byte>, b: seq<Byte>)
    requires Scan(classify, a) == NoAnswer
    ensures Scan(classify, a + b) == Scan(classify, Tail(a) + b)
    ensures Tail(a + b) == Tail(Tail(a) + b)
    decreases |a|
  {
    var n := LineEnd(a);
    if n < |a| {
      LineEndOfPrefix(a, b);
      assert (a + b)[..n] == a[..n];
      assert (a + b)[n + 1..] == a[n + 1..] + b;
      ScanResumes(classify, a[n + 1..], b);
    }
  }

  /** Splits off complete lines until one decides or none is left. */
  method ScanPending<T(==)>(classify: seq<Byte> -> Line<T>, pending: seq<Byte>)
    returns (answer: Answer<T>, rest: seq<Byte>)
    ensures answer == Scan(classify, pending)
    ensures answer == NoAnswer ==> rest == Tail(pending)
  {
    rest := pending;
    while LineEnd(rest) < |rest|
      invariant Scan(classify, rest) == Scan(classify, pending)
      invariant Tail(rest) == Tail(pending)
      decreases |rest|
    {
      var n := LineEnd(rest);
      var line := rest[..n];
      match classify(line)
      case Malformed => return MalformedResponse, rest;
      case Response(item) => return Found(item), rest;
      case Skip => rest := rest[n + 1..];
    }
    answer := NoAnswer;
  }

  /** An answer found in what was consumed is the answer of every longer part. */
  lemma AnswerOfConsumed<T>(classify: seq<Byte> -> Line<T>, stream: seq<Byte>, consumed: nat, upTo: nat)
    requires consumed <= upTo <= |stream| && Scan(classify, stream[..consumed]) != NoAnswer
    ensures Scan(classify, stream[..upTo]) == Scan(classify, stream[..consumed])
  {
    AnswerIsFinal(classify, stream[..consumed], stream[consumed..upTo]);
    assert stream[..upTo] == stream[..consumed] + stream[consumed..upTo];
  }

  /** The contract of a bounded read of `stream`, for every chunking.

      Below the limit the answer is that of the whole stream.  At the limit a stream
      without an answer is an overflow.  Beyond it the answer is an overflow or that of
      the first `limit` bytes. */
  ghost predicate BoundedAnswer<T>(classify: seq<Byte> -> Line<T>, stream: seq<Byte>, limit: nat, answer: Answer<T>) {
    if |stream| < limit || stream == [] then answer == Scan(classify, stream)
    else if |stream| == limit then
      answer == if Scan(classify, stream) == NoAnswer then OutputLimit else Scan(classify, stream)
    else answer == OutputLimit || (answer != NoAnswer && answer == Scan(classify, stream[..limit]))
  }

  lemma EarlyAnswerIsBounded<T>(classify: seq<Byte> -> Line<T>, stream: seq<Byte>, limit: nat, consumed: nat)
    requires consumed <= |stream| && consumed <= limit && Scan(classify, stream[..consumed]) != NoAnswer
    ensures BoundedAnswer(classify, stream, limit, Scan(classify, stream[..consumed]))
  {
    AnswerOfConsumed(classify, stream, consumed, |stream|);
    assert stream[..|stream|] == stream;
    if limit < |stream| { AnswerOfConsumed(classify, stream, consumed, limit); }
  }

  /** Reads until a line decides, the stream ends, or the limit is reached.  Each read
      returns some non-empty part of what is left, of any length the read size and the
      budget allow. */
  method ReadBounded<T(==)>(classify: seq<Byte> -> Line<T>, stream: seq<Byte>, limit: nat)
    returns (answer: Answer<T>, consumed: nat)
    ensures consumed <= |stream| && consumed <= limit + 1
    ensures BoundedAnswer(classify, stream, limit, answer)
  {
    var pending: seq<Byte> := [];
    consumed := 0;
    while consumed < |stream|
      invariant consumed <= |stream| && (consumed < limit || consumed == 0)
      invariant Scan(classify, stream[..consumed]) == NoAnswer
      invariant pending == Tail(stream[..consumed])
      decreases |stream| - consumed
    {
      var room := if READ_SIZE <= limit + 1 - consumed then READ_SIZE else limit + 1 - consumed;
      assert 1 <= room && consumed + 1 <= |stream|;
      var next: nat :| consumed + 1 <= next <= consumed + room && next <= |stream|;
      var chunk := stream[consumed..next];
      assert stream[..next] == stream[..consumed] + chunk;
      ScanResumes(classify, stream[..consumed], chunk);
      consumed := next;
      if consumed > limit { return OutputLimit, consumed; }
      answer, pending := ScanPending(classify, pending + chunk);
      if answer != NoAnswer {
        EarlyAnswerIsBounded(classify, stream, limit, consumed);
        return;
      }
      if consumed >= limit {
        assert |stream| == limit ==> stream[..consumed] == stream;
        return OutputLimit, consumed;
      }
    }
    assert stream[..consumed] == stream;
    answer := NoAnswer;
  }
}
