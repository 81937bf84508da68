/**
 Recognising that a line editor is ready in terminal output that arrives cut into chunks
 (src/main/line-editor-ready-output-scanner.ts).
 */
module ReadyScanner {

  const READY_SEQUENCES := ["\U{1b}[?2004h", "\U{1b}[?1034h"]
  const MAX_SEQUENCE_LENGTH := 8

  predicate IsReadySequence(s: string) {
    s in READY_SEQUENCES
  }

  lemma ReadySequencesHaveMaxLength(s: string)
    requires IsReadySequence(s)
    ensures |s| == MAX_SEQUENCE_LENGTH
  {
  }

  /** A ready sequence ends just before position `end`. */
  predicate EndsAt(s: string, end: nat) {
    MAX_SEQUENCE_LENGTH <= end <= |s| && IsReadySequence(s[end - MAX_SEQUENCE_LENGTH..end])
  }

  predicate OccursAt(s: string, sequence: string, start: nat) {
    start + |sequence| <= |s| && s[start..start + |sequence|] == sequence
  }

  predicate Includes(s: string, sequence: string) {
    exists start: nat :: start <= |s| && OccursAt(s, sequence, start)
  }

  /** A ready sequence ends beyond the first `from` characters. */
  predicate EndsAfter(s: string, from: nat) {
    exists end: nat :: from < end <= |s| && EndsAt(s, end)
  }

  /** The last characters that a sequence still to be completed can begin with. */
  function Tail(s: string): string {
    if |s| <= MAX_SEQUENCE_LENGTH - 1 then s else s[|s| - (MAX_SEQUENCE_LENGTH - 1)..]
  }

  predicate IncludesReady(s: string) {
    exists k :: 0 <= k < |READY_SEQUENCES| && Includes(s, READY_SEQUENCES[k])
  }

  lemma IncludesReadyIsEndsAt(s: string)
    ensures IncludesReady(s) <==> EndsAfter(s, 0)
  {
    if IncludesReady(s) {
      var k :| 0 <= k < |READY_SEQUENCES| && Includes(s, READY_SEQUENCES[k]);
      var sequence := READY_SEQUENCES[k];
      ReadySequencesHaveMaxLength(sequence);
      var start: nat :| start <= |s| && OccursAt(s, sequence, start);
      assert EndsAt(s, start + MAX_SEQUENCE_LENGTH);
    }
    if end: nat :| EndsAt(s, end) {
      var sequence := s[end - MAX_SEQUENCE_LENGTH..end];
      var k :| 0 <= k < |READY_SEQUENCES| && READY_SEQUENCES[k] == sequence;
      assert OccursAt(s, sequence, end - MAX_SEQUENCE_LENGTH);
      assert Includes(s, READY_SEQUENCES[k]);
    }
  }

  /** The last characters before `end` are the same with the whole output in front as with its tail. */
  lemma TailIsSuffix(before: string, data: string, end: nat)
    requires MAX_SEQUENCE_LENGTH <= end <= |Tail(before) + data|
    ensures var whole := end + (|before| - |Tail(before)|);
            (Tail(before) + data)[end - MAX_SEQUENCE_LENGTH..end]
            == (before + data)[whole - MAX_SEQUENCE_LENGTH..whole]
  {
    var dropped := |before| - |Tail(before)|;
    assert Tail(before) == before[dropped..];
    assert Tail(before) + data == (before + data)[dropped..];
  }

  lemma FoundInTail(before: string, data: string, end: nat)
    requires EndsAt(Tail(before) + data, end)
    ensures EndsAfter(before + data, |before|)
  {
    TailIsSuffix(before, data, end);
    assert EndsAt(before + data, end + (|before| - |Tail(before)|));
  }

  lemma KeptInTail(before: string, data: string, end: nat)
    requires |before| < end && EndsAt(before + data, end)
    ensures EndsAfter(Tail(before) + data, 0)
  {
    TailIsSuffix(before, data, end - (|before| - |Tail(before)|));
    assert EndsAt(Tail(before) + data, end - (|before| - |Tail(before)|));
  }

  /** Looking at the tail and the new chunk finds just the sequences that end inside the chunk. */
  lemma ChunkIsEnough(before: string, data: string)
    ensures IncludesReady(Tail(before) + data) <==> EndsAfter(before + data, |before|)
  {
    IncludesReadyIsEndsAt(Tail(before) + data);
    if end: nat :| 0 < end <= |Tail(before) + data| && EndsAt(Tail(before) + data, end) {
      FoundInTail(before, data, end);
    }
    if end: nat :| |before| < end <= |before + data| && EndsAt(before + data, end) {
      KeptInTail(before, data, end);
    }
  }

  lemma TailOfTail(before: string, data: string)
    ensures Tail(Tail(before) + data) == Tail(before + data)
  {
  }

  class ScanState {
    var tail: string

    constructor ()
      ensures tail == ""
    {
      tail := "";
    }

    /** `before` is all the output scanned so far. */
    method ScanForReadyOutput(data: string, ghost before: string) returns (ready: bool)
      requires tail == Tail(before)
      modifies this
      ensures tail == Tail(before + data)
      ensures ready <==> EndsAfter(before + data, |before|)
    {
      var combined := tail + data;
      tail := if |combined| <= MAX_SEQUENCE_LENGTH - 1 then combined
              else combined[|combined| - (MAX_SEQUENCE_LENGTH - 1)..];
      TailOfTail(before, data);
      ChunkIsEnough(before, data);
      ready := IncludesReady(combined);
    }
  }

  function Concat(chunks: seq<string>): string {
    if chunks == [] then "" else chunks[0] + Concat(chunks[1..])
  }

  /** A ready sequence ends inside chunk `k`. */
  predicate EndsInChunk(chunks: seq<string>, k: nat)
    requires k < |chunks|
  {
    EndsAfter(Concat(chunks[..k + 1]), |Concat(chunks[..k])|)
  }

  /** However the output is cut, some call answers true if and only if the whole output has a ready sequence. */
  method ScanAll(chunks: seq<string>) returns (answers: seq<bool>)
    ensures |answers| == |chunks|
    ensures forall k :: 0 <= k < |chunks| ==> (answers[k] <==> EndsInChunk(chunks, k))
    ensures true in answers <==> IncludesReady(Concat(chunks))
  {
    var state := new ScanState();
    answers := [];
    assert chunks[..0] == [];
    for i := 0 to |chunks|
      invariant |answers| == i && state.tail == Tail(Concat(chunks[..i]))
      invariant forall k :: 0 <= k < i ==> (answers[k] <==> EndsInChunk(chunks, k))
    {
      ConcatOneMore(chunks, i);
      var ready := state.ScanForReadyOutput(chunks[i], Concat(chunks[..i]));
      assert ready <==> EndsInChunk(chunks, i);
      answers := answers + [ready];
    }
    SomeAnswer(chunks, answers);
  }

  lemma {:induction false} ConcatAppend(chunks: seq<string>, last: string)
    ensures Concat(chunks + [last]) == Concat(chunks) + last
  {
    if chunks == [] {
      assert Concat([last]) == last + Concat([last][1..]);
    } else {
      ConcatAppend(chunks[1..], last);
      assert (chunks + [last])[1..] == chunks[1..] + [last];
    }
  }

  lemma ConcatOneMore(chunks: seq<string>, k: nat)
    requires k < |chunks|
    ensures Concat(chunks[..k + 1]) == Concat(chunks[..k]) + chunks[k]
  {
    assert chunks[..k + 1] == chunks[..k] + [chunks[k]];
    ConcatAppend(chunks[..k], chunks[k]);
  }

  /** A position of the output falls into one of the chunks, and earlier chunks are a prefix of the output. */
  lemma {:induction false} PositionInChunk(chunks: seq<string>, n: nat, end: nat)
    requires n <= |chunks| && EndsAt(Concat(chunks[..n]), end)
    ensures exists k :: 0 <= k < n && EndsInChunk(chunks, k)
  {
    if n > 0 {
      ConcatOneMore(chunks, n - 1);
      var before := Concat(chunks[..n - 1]);
      if end <= |before| {
        assert Concat(chunks[..n])[end - MAX_SEQUENCE_LENGTH..end] == before[end - MAX_SEQUENCE_LENGTH..end];
        PositionInChunk(chunks, n - 1, end);
      } else {
        assert EndsInChunk(chunks, n - 1);
      }
    }
  }

  lemma LaterOutputKeeps(s: string, from: nat, t: string)
    requires EndsAfter(s, from)
    ensures EndsAfter(s + t, 0)
  {
    var end: nat :| from < end <= |s| && EndsAt(s, end);
    assert (s + t)[end - MAX_SEQUENCE_LENGTH..end] == s[end - MAX_SEQUENCE_LENGTH..end];
    assert EndsAt(s + t, end);
  }

  lemma {:induction false} LaterChunksKeep(chunks: seq<string>, n: nat, from: nat)
    requires n <= |chunks| && EndsAfter(Concat(chunks[..n]), from)
    ensures EndsAfter(Concat(chunks), 0)
    decreases |chunks| - n
  {
    if n == |chunks| {
      assert chunks[..n] == chunks && Concat(chunks) + "" == Concat(chunks);
      LaterOutputKeeps(Concat(chunks), from, "");
    } else {
      ConcatOneMore(chunks, n);
      LaterOutputKeeps(Concat(chunks[..n]), from, chunks[n]);
      LaterChunksKeep(chunks, n + 1, 0);
    }
  }

  lemma WholeThenChunk(chunks: seq<string>)
    requires EndsAfter(Concat(chunks), 0)
    ensures exists k :: 0 <= k < |chunks| && EndsInChunk(chunks, k)
  {
    var end: nat :| 0 < end <= |Concat(chunks)| && EndsAt(Concat(chunks), end);
    assert chunks[..|chunks|] == chunks;
    PositionInChunk(chunks, |chunks|, end);
  }

  lemma SomeAnswer(chunks: seq<string>, answers: seq<bool>)
    requires |answers| == |chunks|
    requires forall k :: 0 <= k < |chunks| ==> (answers[k] <==> EndsInChunk(chunks, k))
    ensures true in answers <==> IncludesReady(Concat(chunks))
  {
    IncludesReadyIsEndsAt(Concat(chunks));
    if true in answers {
      var k :| 0 <= k < |answers| && answers[k];
      LaterChunksKeep(chunks, k + 1, |Concat(chunks[..k])|);
    }
    if EndsAfter(Concat(chunks), 0) {
      WholeThenChunk(chunks);
    }
  }
}
