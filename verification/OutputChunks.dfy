/**
 How finely the editor store keeps its terminal output (src/store/editor.ts, 446-501): small pieces are merged, so
 that the bounded output is never more than sixty chunks, however finely it was appended.
 */
module OutputChunks {
  import opened Prelude
  import opened TerminalOutput

  const MOST_CHUNKS: nat := 60

  /** Two chunks in a row behind the first were too long to be one. */
  ghost predicate IsMerged(chunks: seq<Text>) {
    forall i :: 1 <= i < |chunks| - 1 ==> |chunks[i]| + |chunks[i + 1]| > MAX_TERMINAL_OUTPUT_CHUNK_LENGTH
  }

  lemma PushIsMerged(chunks: seq<Text>, value: Text)
    requires IsMerged(chunks)
    ensures IsMerged(Push(chunks, value))
  {
    var pushed := Push(chunks, value);
    forall i | 1 <= i < |pushed| - 1 ensures |pushed[i]| + |pushed[i + 1]| > MAX_TERMINAL_OUTPUT_CHUNK_LENGTH {
      if i < |chunks| - 1 {
        assert |chunks[i]| + |chunks[i + 1]| > MAX_TERMINAL_OUTPUT_CHUNK_LENGTH;
      }
    }
  }

  /** Trimming shortens the first chunk, or the rest moves up. */
  lemma {:induction false} TrimIsMerged(chunks: seq<Text>, overflow: int)
    requires IsMerged(chunks)
    ensures IsMerged(TerminalOutput.Trim(chunks, overflow))
    decreases |chunks|
  {
    if overflow > 0 && chunks != [] {
      var others := chunks[1..];
      forall i | 1 <= i < |others| - 1 ensures |others[i]| + |others[i + 1]| > MAX_TERMINAL_OUTPUT_CHUNK_LENGTH {
        assert others[i] == chunks[i + 1] && others[i + 1] == chunks[i + 2];
      }
      TrimIsMerged(others, overflow - |chunks[0]|);
    }
  }

  lemma {:induction false} RunIsMerged(operations: seq<Operation>)
    ensures IsMerged(Run(operations))
  {
    if operations != [] {
      var earlier, last := operations[..|operations| - 1], operations[|operations| - 1];
      RunIsMerged(earlier);
      match last
      case AppendOutput(value) =>
        PushIsMerged(Run(earlier), value);
        TrimIsMerged(Push(Run(earlier), value), |Flatten(Run(earlier))| + |value| - MAX_TERMINAL_OUTPUT_LENGTH);
      case SetOutput(_) =>
    }
  }

  /** Every two merged chunks behind the first take more than the length up to which chunks are merged. */
  lemma {:induction false} PairsAreLong(chunks: seq<Text>)
    requires IsMerged(chunks)
    ensures |Flatten(chunks)| >= (|chunks| - 1) / 2 * (MAX_TERMINAL_OUTPUT_CHUNK_LENGTH + 1)
    decreases |chunks|
  {
    if |chunks| >= 3 {
      var n := |chunks| - 2;
      PairsAreLong(chunks[..n]);
      assert chunks == chunks[..n] + [chunks[n], chunks[n + 1]];
      FlattenTwo(chunks[..n], chunks[n], chunks[n + 1]);
      assert (|chunks| - 1) / 2 == (n - 1) / 2 + 1;
    }
  }

  lemma FlattenTwo(chunks: seq<Text>, a: Text, b: Text)
    ensures Flatten(chunks + [a, b]) == Flatten(chunks) + a + b
  {
    assert chunks + [a, b] == (chunks + [a]) + [b];
    FlattenOne(chunks, a);
    FlattenOne(chunks + [a], b);
  }

  /** After any appends and resets, however many and however small, there are at most sixty chunks. */
  lemma ChunksAreFew(operations: seq<Operation>)
    ensures |Run(operations)| <= MOST_CHUNKS
  {
    RunIsMerged(operations);
    PairsAreLong(Run(operations));
    BoundedAlways(operations);
  }

  /** A character outside the basic plane is well formed, and neither of its halves is. */
  lemma PairIsWellFormed(high: CodeUnit, low: CodeUnit)
    requires 0xd800 <= high <= 0xdbff && 0xdc00 <= low <= 0xdfff
    ensures WellFormed([high, low]) && !WellFormed([high]) && !WellFormed([low]) && !WellFormed([low, high])
  {
    assert [high][0] == high && [low][0] == low && [low, high][0] == low;
  }
}
