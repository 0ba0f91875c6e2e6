/**
 The bounded terminal output of the editor store (src/store/editor.ts, 30-31, 57-80 and 446-501).

 Output is kept as a list of chunks of UTF-16 code units, at most 120000 in all; the oldest units are
 dropped, and a low surrogate left at the front by a cut is dropped with them. The promise is
 "keep the last 120000 code units, without half a surrogate pair" (`KeepLast`). For text in which
 surrogates are paired the store meets it after every sequence of operations; for other text it is
 missed exactly when the cut falls between two chunks and a low surrogate follows.
 */
module TerminalOutput {
  import opened Prelude

  type Text = seq<CodeUnit>

  const MAX_TERMINAL_OUTPUT_LENGTH: nat := 120_000
  const MAX_TERMINAL_OUTPUT_CHUNK_LENGTH: nat := 4_096

  predicate IsLow(c: CodeUnit) {
    0xdc00 <= c <= 0xdfff
  }

  predicate IsHigh(c: CodeUnit) {
    0xd800 <= c <= 0xdbff
  }

  function WithoutLeadingLow(text: Text): Text {
    if text != [] && IsLow(text[0]) then text[1..] else text
  }

  /** `clampToCodeUnitBoundary`. */
  function ClampToCodeUnitBoundary(value: Text, maxLength: nat): Text {
    if |value| <= maxLength then value else WithoutLeadingLow(value[|value| - maxLength..])
  }

  /** `trimLeadingCodeUnitBoundary`. */
  function TrimLeadingCodeUnitBoundary(value: Text, startIndex: nat): Text {
    if startIndex <= 0 then value
    else if startIndex >= |value| then []
    else WithoutLeadingLow(value[startIndex..])
  }

  /** What the store promises to show. */
  function KeepLast(text: Text): Text {
    ClampToCodeUnitBoundary(text, MAX_TERMINAL_OUTPUT_LENGTH)
  }

  // ---------------------------------------------------------------------------
  // Chunks
  // ---------------------------------------------------------------------------

  ghost predicate NoEmptyChunk(chunks: seq<Text>) {
    forall i :: 0 <= i < |chunks| ==> chunks[i] != []
  }

  /** `chunks.filter((chunk) => chunk.length > 0)`. */
  function NonEmptyChunks(chunks: seq<Text>): seq<Text> {
    if chunks == [] then []
    else (if chunks[0] != [] then [chunks[0]] else []) + NonEmptyChunks(chunks[1..])
  }

  lemma {:induction false} NonEmptyChunksFlatten(chunks: seq<Text>)
    ensures NoEmptyChunk(NonEmptyChunks(chunks)) && Flatten(NonEmptyChunks(chunks)) == Flatten(chunks)
  {
    if chunks != [] {
      NonEmptyChunksFlatten(chunks[1..]);
      if chunks[0] != [] {
        assert NonEmptyChunks(chunks)[1..] == NonEmptyChunks(chunks[1..]);
      } else {
        assert chunks[0] + Flatten(chunks[1..]) == Flatten(chunks[1..]);
        assert NonEmptyChunks(chunks) == NonEmptyChunks(chunks[1..]);
      }
    }
  }

  /** The value goes into the last chunk while that stays small, else into a chunk of its own. */
  function Push(chunks: seq<Text>, value: Text): (pushed: seq<Text>)
    ensures pushed != []
  {
    var last := |chunks| - 1;
    if last >= 0 && |chunks[last]| + |value| <= MAX_TERMINAL_OUTPUT_CHUNK_LENGTH
    then chunks[last := chunks[last] + value] else chunks + [value]
  }

  /** The trimming loop: whole chunks first, then a part of the next one. */
  function Trim(chunks: seq<Text>, overflow: int): seq<Text>
    decreases |chunks|
  {
    if overflow <= 0 || chunks == [] then chunks
    else if |chunks[0]| <= overflow then Trim(chunks[1..], overflow - |chunks[0]|)
    else
      var trimmed := TrimLeadingCodeUnitBoundary(chunks[0], overflow);
      if trimmed != [] then chunks[0 := trimmed] else chunks[1..]
  }

  function Append(chunks: seq<Text>, value: Text): seq<Text> {
    if value == [] then chunks
    else Trim(Push(chunks, value), |Flatten(chunks)| + |value| - MAX_TERMINAL_OUTPUT_LENGTH)
  }

  function SetChunks(value: Text): seq<Text> {
    var clamped := KeepLast(value);
    if clamped == [] then [] else [clamped]
  }

  lemma PushFlatten(chunks: seq<Text>, value: Text)
    ensures Flatten(Push(chunks, value)) == Flatten(chunks) + value
  {
    var last := |chunks| - 1;
    FlattenOne(chunks, value);
    if last >= 0 {
      assert chunks == chunks[..last] + [chunks[last]];
      FlattenOne(chunks[..last], chunks[last]);
      FlattenOne(chunks[..last], chunks[last] + value);
      assert chunks[last := chunks[last] + value] == chunks[..last] + [chunks[last] + value];
    }
  }

  /** The cut after `overflow` units falls inside a chunk, not between two. */
  predicate CutsInside(chunks: seq<Text>, overflow: int) {
    overflow > 0 && chunks != [] && (overflow < |chunks[0]| || CutsInside(chunks[1..], overflow - |chunks[0]|))
  }

  /** What trimming a text leaves: everything after the cut, less a low surrogate if the cut is inside a chunk. */
  function AfterCut(text: Text, overflow: nat, inside: bool): Text
    requires overflow <= |text|
  {
    if inside then WithoutLeadingLow(text[overflow..]) else text[overflow..]
  }

  lemma {:induction false} TrimFlatten(chunks: seq<Text>, overflow: nat)
    requires overflow <= |Flatten(chunks)|
    ensures Flatten(Trim(chunks, overflow)) == AfterCut(Flatten(chunks), overflow, CutsInside(chunks, overflow))
    decreases |chunks|
  {
    if overflow == 0 || chunks == [] {
    } else if |chunks[0]| <= overflow {
      TrimFlatten(chunks[1..], overflow - |chunks[0]|);
      assert (chunks[0] + Flatten(chunks[1..]))[overflow..] == Flatten(chunks[1..])[overflow - |chunks[0]|..];
    } else {
      TrimFirst(chunks, overflow);
    }
  }

  lemma TrimFirst(chunks: seq<Text>, overflow: nat)
    requires chunks != [] && 0 < overflow < |chunks[0]|
    ensures Flatten(Trim(chunks, overflow)) == WithoutLeadingLow(Flatten(chunks)[overflow..])
  {
    var c, others := chunks[0], Flatten(chunks[1..]);
    var trimmed := TrimLeadingCodeUnitBoundary(c, overflow);
    assert (c + others)[overflow..] == c[overflow..] + others;
    assert WithoutLeadingLow(c[overflow..] + others) == trimmed + others;
    if trimmed != [] {
      assert chunks[0 := trimmed][1..] == chunks[1..];
    } else {
      assert trimmed + others == others;
    }
  }

  lemma {:induction false} TrimNoEmptyChunk(chunks: seq<Text>, overflow: int)
    requires NoEmptyChunk(chunks)
    ensures NoEmptyChunk(Trim(chunks, overflow))
    decreases |chunks|
  {
    if overflow > 0 && chunks != [] && |chunks[0]| <= overflow {
      TrimNoEmptyChunk(chunks[1..], overflow - |chunks[0]|);
    }
  }

  /** What an append leaves of the text so far. */
  function Kept(text: Text, inside: bool): Text {
    if |text| <= MAX_TERMINAL_OUTPUT_LENGTH then text else AfterCut(text, |text| - MAX_TERMINAL_OUTPUT_LENGTH, inside)
  }

  /** The cut of an append falls inside a chunk. */
  predicate AppendCutsInside(chunks: seq<Text>, value: Text) {
    CutsInside(Push(chunks, value), |Flatten(chunks) + value| - MAX_TERMINAL_OUTPUT_LENGTH)
  }

  lemma TrimKept(chunks: seq<Text>, overflow: int)
    requires overflow == |Flatten(chunks)| - MAX_TERMINAL_OUTPUT_LENGTH
    ensures Flatten(Trim(chunks, overflow)) == Kept(Flatten(chunks), CutsInside(chunks, overflow))
  {
    if overflow > 0 {
      TrimFlatten(chunks, overflow);
    }
  }

  /** One append, for every store and every value: the oldest units go, exactly as many as do not fit and
      at most one low surrogate more. */
  lemma AppendDropsOverflow(chunks: seq<Text>, value: Text)
    requires |Flatten(chunks)| <= MAX_TERMINAL_OUTPUT_LENGTH
    ensures Flatten(Append(chunks, value)) == Kept(Flatten(chunks) + value, AppendCutsInside(chunks, value))
    ensures |Flatten(Append(chunks, value))| <= MAX_TERMINAL_OUTPUT_LENGTH
  {
    PushFlatten(chunks, value);
    if value == [] {
      assert Flatten(chunks) + value == Flatten(chunks);
    } else {
      TrimKept(Push(chunks, value), |Flatten(chunks)| + |value| - MAX_TERMINAL_OUTPUT_LENGTH);
    }
  }

  lemma KeptIsKeepLastExactly(text: Text, inside: bool)
    ensures var overflow := |text| - MAX_TERMINAL_OUTPUT_LENGTH;
            Kept(text, inside) == KeepLast(text) <==> (overflow > 0 && IsLow(text[overflow]) ==> inside)
  {
    var overflow := |text| - MAX_TERMINAL_OUTPUT_LENGTH;
    if overflow > 0 {
      assert text[overflow..][0] == text[overflow];
      assert |text[overflow..]| != |text[overflow..][1..]|;
    }
  }

  /** Exactly when one append keeps the promise. */
  lemma AppendKeepsLastExactly(chunks: seq<Text>, value: Text)
    requires |Flatten(chunks)| <= MAX_TERMINAL_OUTPUT_LENGTH
    ensures var text := Flatten(chunks) + value;
            var overflow := |text| - MAX_TERMINAL_OUTPUT_LENGTH;
            Flatten(Append(chunks, value)) == KeepLast(text)
            <==> (overflow > 0 && IsLow(text[overflow]) ==> AppendCutsInside(chunks, value))
  {
    AppendDropsOverflow(chunks, value);
    KeptIsKeepLastExactly(Flatten(chunks) + value, AppendCutsInside(chunks, value));
  }

  // ---------------------------------------------------------------------------
  // Paired surrogates
  // ---------------------------------------------------------------------------

  /** Surrogates come in pairs, a high one and then a low one. */
  ghost predicate WellFormed(text: Text) {
    && (forall i :: 0 <= i < |text| && IsLow(text[i]) ==> i > 0 && IsHigh(text[i - 1]))
    && (forall i :: 0 <= i < |text| && IsHigh(text[i]) ==> i + 1 < |text| && IsLow(text[i + 1]))
  }

  ghost predicate WellFormedChunks(chunks: seq<Text>) {
    forall i :: 0 <= i < |chunks| ==> WellFormed(chunks[i])
  }

  lemma WellFormedConcat(a: Text, b: Text)
    requires WellFormed(a) && WellFormed(b)
    ensures WellFormed(a + b)
  {
    var text := a + b;
    forall i | 0 <= i < |text| && IsLow(text[i]) ensures i > 0 && IsHigh(text[i - 1]) {
      if i >= |a| {
        assert text[i] == b[i - |a|];
      }
    }
    forall i | 0 <= i < |text| && IsHigh(text[i]) ensures i + 1 < |text| && IsLow(text[i + 1]) {
      if i >= |a| {
        assert text[i] == b[i - |a|];
      } else {
        assert text[i] == a[i];
      }
    }
  }

  lemma WellFormedSuffix(text: Text, start: nat)
    requires WellFormed(text) && start <= |text|
    ensures WellFormed(WithoutLeadingLow(text[start..]))
    ensures start < |text| && !IsLow(text[start]) ==> WellFormed(text[start..])
  {
    var rest := text[start..];
    var t := WithoutLeadingLow(rest);
    var shift := |text| - |t|;
    forall i | 0 <= i < |t| ensures t[i] == text[shift + i] {
    }
    assert |rest| > 1 && IsLow(text[start + 1]) ==> IsHigh(text[start]);
    forall i | 0 <= i < |t| && IsLow(t[i]) ensures i > 0 && IsHigh(t[i - 1]) {
      assert text[shift + i] == t[i];
    }
    forall i | 0 <= i < |t| && IsHigh(t[i]) ensures i + 1 < |t| && IsLow(t[i + 1]) {
      assert text[shift + i] == t[i];
    }
  }

  lemma {:induction false} WellFormedFlatten(chunks: seq<Text>)
    requires WellFormedChunks(chunks)
    ensures WellFormed(Flatten(chunks))
  {
    if chunks != [] {
      WellFormedFlatten(chunks[1..]);
      WellFormedConcat(chunks[0], Flatten(chunks[1..]));
    }
  }

  lemma PushWellFormed(chunks: seq<Text>, value: Text)
    requires WellFormedChunks(chunks) && WellFormed(value)
    ensures WellFormedChunks(Push(chunks, value))
  {
    if chunks != [] {
      WellFormedConcat(chunks[|chunks| - 1], value);
    }
  }

  lemma {:induction false} TrimWellFormed(chunks: seq<Text>, overflow: int)
    requires WellFormedChunks(chunks)
    ensures WellFormedChunks(Trim(chunks, overflow))
    decreases |chunks|
  {
    if overflow > 0 && chunks != [] {
      if |chunks[0]| <= overflow {
        TrimWellFormed(chunks[1..], overflow - |chunks[0]|);
      } else {
        WellFormedSuffix(chunks[0], overflow);
      }
    }
  }

  /** Between well-formed chunks no low surrogate can be left at the front. */
  lemma {:induction false} CutBetweenIsClean(chunks: seq<Text>, overflow: nat)
    requires WellFormedChunks(chunks) && overflow < |Flatten(chunks)| && !CutsInside(chunks, overflow)
    ensures !IsLow(Flatten(chunks)[overflow])
    decreases |chunks|
  {
    if |chunks[0]| <= overflow {
      CutBetweenIsClean(chunks[1..], overflow - |chunks[0]|);
    } else {
      assert overflow == 0;
      assert Flatten(chunks)[0] == chunks[0][0];
    }
  }

  lemma CleanCutIsKeepLast(chunks: seq<Text>, overflow: int)
    requires WellFormedChunks(chunks) && overflow == |Flatten(chunks)| - MAX_TERMINAL_OUTPUT_LENGTH
    ensures Kept(Flatten(chunks), CutsInside(chunks, overflow)) == KeepLast(Flatten(chunks))
  {
    if overflow > 0 && !CutsInside(chunks, overflow) {
      CutBetweenIsClean(chunks, overflow);
    }
  }

  lemma WellFormedAppend(chunks: seq<Text>, value: Text)
    requires WellFormedChunks(chunks) && WellFormed(value) && |Flatten(chunks)| <= MAX_TERMINAL_OUTPUT_LENGTH
    ensures WellFormedChunks(Append(chunks, value))
    ensures Flatten(Append(chunks, value)) == KeepLast(Flatten(chunks) + value)
  {
    var pushed, overflow := Push(chunks, value), |Flatten(chunks) + value| - MAX_TERMINAL_OUTPUT_LENGTH;
    PushWellFormed(chunks, value);
    TrimWellFormed(pushed, overflow);
    AppendDropsOverflow(chunks, value);
    PushFlatten(chunks, value);
    CleanCutIsKeepLast(pushed, overflow);
  }

  /** In a well-formed text, forgetting twice from the same end is forgetting once. */
  lemma KeepLastOfSuffix(text: Text, j: nat)
    requires WellFormed(text) && j <= |text|
    requires var k := |text| - MAX_TERMINAL_OUTPUT_LENGTH; j < k || (j == k && !IsLow(text[k])) || (j == k + 1 && k >= 0 && IsLow(text[k]))
    ensures KeepLast(text[j..]) == KeepLast(text)
  {
    var k := |text| - MAX_TERMINAL_OUTPUT_LENGTH;
    if j < k {
      assert text[j..][k - j..] == text[k..];
    }
  }

  /** Forgetting early or late makes no difference, where surrogates are paired. */
  lemma KeepLastTwice(a: Text, b: Text)
    requires WellFormed(a) && WellFormed(b)
    ensures KeepLast(KeepLast(a) + b) == KeepLast(a + b)
  {
    var text, kept := a + b, KeepLast(a);
    WellFormedConcat(a, b);
    if |a| > MAX_TERMINAL_OUTPUT_LENGTH {
      var j, k := |a| - |kept|, |text| - MAX_TERMINAL_OUTPUT_LENGTH;
      assert kept == a[j..] && kept + b == text[j..];
      assert k < |text| && IsLow(text[k]) ==> IsHigh(text[k - 1]);
      assert text[|a| - MAX_TERMINAL_OUTPUT_LENGTH] == a[|a| - MAX_TERMINAL_OUTPUT_LENGTH];
      KeepLastOfSuffix(text, j);
    }
  }

  // ---------------------------------------------------------------------------
  // Every sequence of operations
  // ---------------------------------------------------------------------------

  datatype Operation = AppendOutput(value: Text) | SetOutput(value: Text)

  function Step(chunks: seq<Text>, operation: Operation): seq<Text> {
    match operation
    case AppendOutput(value) => Append(chunks, value)
    case SetOutput(value) => SetChunks(value)
  }

  function Run(operations: seq<Operation>): seq<Text> {
    if operations == [] then []
    else Step(Run(operations[..|operations| - 1]), operations[|operations| - 1])
  }

  /** All that was appended since the output was last set. */
  function Everything(operations: seq<Operation>): Text {
    if operations == [] then []
    else
      var last := operations[|operations| - 1];
      match last
      case AppendOutput(value) => Everything(operations[..|operations| - 1]) + value
      case SetOutput(value) => value
  }

  ghost predicate AllWellFormed(operations: seq<Operation>) {
    forall i :: 0 <= i < |operations| ==> WellFormed(operations[i].value)
  }

  lemma {:induction false} EverythingWellFormed(operations: seq<Operation>)
    requires AllWellFormed(operations)
    ensures WellFormed(Everything(operations))
  {
    if operations != [] {
      EverythingWellFormed(operations[..|operations| - 1]);
      var last := operations[|operations| - 1];
      if last.AppendOutput? {
        WellFormedConcat(Everything(operations[..|operations| - 1]), last.value);
      }
    }
  }

  lemma FlattenSingle(text: Text)
    ensures Flatten([text]) == text
  {
    assert [text][1..] == [];
  }

  lemma {:induction false} BoundedAlways(operations: seq<Operation>)
    ensures NoEmptyChunk(Run(operations)) && |Flatten(Run(operations))| <= MAX_TERMINAL_OUTPUT_LENGTH
  {
    if operations != [] {
      var before := Run(operations[..|operations| - 1]);
      BoundedAlways(operations[..|operations| - 1]);
      StepBounded(before, operations[|operations| - 1]);
    }
  }

  lemma StepBounded(chunks: seq<Text>, operation: Operation)
    requires NoEmptyChunk(chunks) && |Flatten(chunks)| <= MAX_TERMINAL_OUTPUT_LENGTH
    ensures NoEmptyChunk(Step(chunks, operation)) && |Flatten(Step(chunks, operation))| <= MAX_TERMINAL_OUTPUT_LENGTH
  {
    match operation
    case AppendOutput(value) =>
      AppendDropsOverflow(chunks, value);
      if value != [] {
        TrimNoEmptyChunk(Push(chunks, value), |Flatten(chunks)| + |value| - MAX_TERMINAL_OUTPUT_LENGTH);
      }
    case SetOutput(value) =>
      FlattenSingle(KeepLast(value));
  }

  /** The chunks show the end of the text. */
  ghost predicate ShowsEnd(chunks: seq<Text>, text: Text) {
    WellFormedChunks(chunks) && Flatten(chunks) == KeepLast(text)
  }

  lemma AppendShowsEnd(chunks: seq<Text>, text: Text, value: Text)
    requires ShowsEnd(chunks, text) && WellFormed(text) && WellFormed(value)
    ensures ShowsEnd(Append(chunks, value), text + value)
  {
    WellFormedAppend(chunks, value);
    KeepLastTwice(text, value);
  }

  lemma SetShowsEnd(value: Text)
    requires WellFormed(value)
    ensures ShowsEnd(SetChunks(value), value)
  {
    FlattenSingle(KeepLast(value));
    if |value| > MAX_TERMINAL_OUTPUT_LENGTH {
      WellFormedSuffix(value, |value| - MAX_TERMINAL_OUTPUT_LENGTH);
    }
  }

  lemma {:induction false} RunShowsEnd(operations: seq<Operation>)
    requires AllWellFormed(operations)
    ensures ShowsEnd(Run(operations), Everything(operations))
  {
    if operations != [] {
      var earlier, last := operations[..|operations| - 1], operations[|operations| - 1];
      RunShowsEnd(earlier);
      match last
      case AppendOutput(value) =>
        EverythingWellFormed(earlier);
        AppendShowsEnd(Run(earlier), Everything(earlier), value);
      case SetOutput(value) =>
        SetShowsEnd(value);
    }
  }

  /** After any appends and resets, the snapshot is the end of everything that was appended, and no half of
      a surrogate pair is in it. */
  lemma SnapshotIsKeepLast(operations: seq<Operation>)
    requires AllWellFormed(operations)
    ensures Flatten(Run(operations)) == KeepLast(Everything(operations))
    ensures WellFormed(Flatten(Run(operations)))
  {
    RunShowsEnd(operations);
    WellFormedFlatten(Run(operations));
  }

  /** Unpaired surrogates can be seen: a chunk that starts with a low one comes to the front whole. */
  lemma LoneSurrogateSurvives() returns (operations: seq<Operation>)
    ensures Flatten(Run(operations)) != [] && IsLow(Flatten(Run(operations))[0])
    ensures Flatten(Run(operations)) != KeepLast(Everything(operations))
  {
    var first: Text := seq(4096, _ => 0x61);
    var second: Text := [0xdc00] + seq(115_903, _ => 0x61);
    operations := [AppendOutput(first), AppendOutput(second), AppendOutput(first)];
    var one: seq<Operation> := [AppendOutput(first)];
    var two: seq<Operation> := [AppendOutput(first), AppendOutput(second)];
    assert operations[..2] == two && two[..1] == one && one[..0] == [];
    FlattenSingle(first);
    assert Run(one) == [first] && Everything(one) == first;
    assert Run(two) == [first, second] && Everything(two) == first + second;
    FlattenOne([first], second);
    assert [first] + [second] == [first, second];
    assert Push([first, second], first) == [first, second, first];
    assert [first, second, first][1..] == [second, first];
    assert Append([first, second], first) == Trim([first, second, first], 4096) == Trim([second, first], 0);
    assert Run(operations) == [second, first];
    FlattenOne([second], first);
    FlattenSingle(second);
    assert [second] + [first] == [second, first];
    assert Everything(operations) == first + second + first;
    assert (first + second + first)[4096] == 0xdc00;
  }

  // ---------------------------------------------------------------------------
  // The store
  // ---------------------------------------------------------------------------

  /** The chunks after an append to a store in order. */
  lemma Appended(chunks: seq<Text>, value: Text)
    requires value != [] && NoEmptyChunk(chunks) && |Flatten(chunks)| <= MAX_TERMINAL_OUTPUT_LENGTH
    ensures |Flatten(Push(chunks, value))| == |Flatten(chunks)| + |value|
    ensures var next := Step(chunks, AppendOutput(value));
            && next == Trim(Push(chunks, value), |Flatten(chunks)| + |value| - MAX_TERMINAL_OUTPUT_LENGTH)
            && NoEmptyChunk(next) && |Flatten(next)| <= MAX_TERMINAL_OUTPUT_LENGTH
  {
    PushFlatten(chunks, value);
    StepBounded(chunks, AppendOutput(value));
  }

  class TerminalOutputStore {
    var terminalOutputChunks: seq<Text>
    var terminalOutputLength: nat
    var terminalOutputVersion: nat

    /** The cached length is the length, within the cap, and there is no empty chunk. */
    ghost predicate Valid()
      reads this
    {
      && terminalOutputLength == |Flatten(terminalOutputChunks)|
      && terminalOutputLength <= MAX_TERMINAL_OUTPUT_LENGTH
      && NoEmptyChunk(terminalOutputChunks)
    }

    constructor ()
      ensures Valid() && terminalOutputChunks == Run([]) && terminalOutputVersion == 0
    {
      terminalOutputChunks, terminalOutputLength, terminalOutputVersion := [], 0, 0;
    }

    function GetTerminalOutputSnapshot(): (text: Text)
      requires Valid()
      reads this
      ensures |text| == terminalOutputLength
    {
      Flatten(terminalOutputChunks)
    }

    method AppendTerminalOutputChunk(value: Text)
      requires Valid()
      modifies this
      ensures Valid() && terminalOutputChunks == Step(old(terminalOutputChunks), AppendOutput(value))
      ensures terminalOutputVersion == old(terminalOutputVersion) + if value == [] then 0 else 1
    {
      if value == [] {
        return;
      }
      var nextChunks := PushChunk(value);
      var nextLength;
      Appended(terminalOutputChunks, value);
      nextChunks, nextLength := TrimOverflow(nextChunks, terminalOutputLength + |value|);
      terminalOutputChunks := nextChunks;
      terminalOutputLength := nextLength;
      terminalOutputVersion := terminalOutputVersion + 1;
    }

    /** The chunks with the value in the last one, or as a new one where that is too long. */
    method PushChunk(value: Text) returns (nextChunks: seq<Text>)
      ensures nextChunks == Push(terminalOutputChunks, value)
    {
      nextChunks := terminalOutputChunks;
      var lastChunkIndex := |nextChunks| - 1;
      if lastChunkIndex >= 0 && |nextChunks[lastChunkIndex]| + |value| <= MAX_TERMINAL_OUTPUT_CHUNK_LENGTH {
        nextChunks := nextChunks[lastChunkIndex := nextChunks[lastChunkIndex] + value];
      } else {
        nextChunks := nextChunks + [value];
      }
    }

    method SetTerminalOutputChunks(chunks: seq<Text>)
      requires |Flatten(chunks)| <= MAX_TERMINAL_OUTPUT_LENGTH
      modifies this
      ensures Valid() && terminalOutputChunks == NonEmptyChunks(chunks)
      ensures GetTerminalOutputSnapshot() == Flatten(chunks) && terminalOutputVersion == old(terminalOutputVersion) + 1
    {
      NonEmptyChunksFlatten(chunks);
      terminalOutputChunks := NonEmptyChunks(chunks);
      terminalOutputLength := |Flatten(terminalOutputChunks)|;
      terminalOutputVersion := terminalOutputVersion + 1;
    }

    method SetTerminalOutput(value: Text)
      modifies this
      ensures Valid() && terminalOutputChunks == Step(old(terminalOutputChunks), SetOutput(value))
      ensures terminalOutputVersion == old(terminalOutputVersion) + 1
    {
      var clampedValue := ClampToCodeUnitBoundary(value, MAX_TERMINAL_OUTPUT_LENGTH);
      FlattenSingle(clampedValue);
      SetTerminalOutputChunks(if clampedValue != [] then [clampedValue] else []);
    }
  }

  /** The loop of `appendTerminalOutputChunk`. */
  method TrimOverflow(chunks: seq<Text>, length: nat) returns (nextChunks: seq<Text>, nextLength: nat)
    requires length == |Flatten(chunks)|
    ensures nextChunks == Trim(chunks, length - MAX_TERMINAL_OUTPUT_LENGTH)
    ensures nextLength == |Flatten(nextChunks)|
  {
    nextChunks, nextLength := chunks, length;
    var overflow := length - MAX_TERMINAL_OUTPUT_LENGTH;
    while overflow > 0 && |nextChunks| > 0
      invariant Trim(nextChunks, overflow) == Trim(chunks, length - MAX_TERMINAL_OUTPUT_LENGTH)
      invariant nextLength == |Flatten(nextChunks)|
      decreases |nextChunks|, overflow
    {
      var firstChunk := nextChunks[0];
      if |firstChunk| <= overflow {
        overflow := overflow - |firstChunk|;
        nextLength := nextLength - |firstChunk|;
        nextChunks := nextChunks[1..];
        continue;
      }
      var trimmedChunk := TrimLeadingCodeUnitBoundary(firstChunk, overflow);
      nextLength := nextLength - (|firstChunk| - |trimmedChunk|);
      overflow := 0;
      if |trimmedChunk| > 0 {
        assert nextChunks[0 := trimmedChunk][1..] == nextChunks[1..];
        nextChunks := nextChunks[0 := trimmedChunk];
      } else {
        nextChunks := nextChunks[1..];
      }
    }
  }
}
