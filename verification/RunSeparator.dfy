/**
 The separator line between runs: how the backend builds it (src-tauri/src/terminal/visual.rs, 158-181), and
 how a terminal that does not show it removes it (src/terminal/session.ts, 269-281).
 */
module RunSeparator {
  import opened Prelude

  const RUN_SEPARATOR_PREFIX := "──── run #"

  predicate OccursAt(text: string, pattern: string, at: nat) {
    at + |pattern| <= |text| && text[at..at + |pattern|] == pattern
  }

  /** `text.indexOf(pattern, from)`: the first place at or after `from` where the pattern occurs. */
  function IndexOf(text: string, pattern: string, from: nat): (at: Option<nat>)
    requires from <= |text|
    ensures at.Some? ==> from <= at.value && OccursAt(text, pattern, at.value)
    ensures forall k: nat :: from <= k && (at.Some? ==> k < at.value) ==> !OccursAt(text, pattern, k)
    decreases |text| - from
  {
    if OccursAt(text, pattern, from) then Some(from)
    else if from == |text| then None
    else IndexOf(text, pattern, from + 1)
  }

  /** The end of the separator line whose marker is at `marker`. */
  function SeparatorEnd(data: string, marker: nat): (end: nat)
    requires marker <= |data|
    ensures marker <= end <= |data|
  {
    match IndexOf(data, "\r\n", marker)
    case Some(crlf) => crlf + 2
    case None =>
      match IndexOf(data, "\n", marker)
      case Some(lf) => lf + 1
      case None => |data|
  }

  /** Cuts the separator line, marker and line end included. */
  function StripSeparator(data: string): string {
    match IndexOf(data, RUN_SEPARATOR_PREFIX, 0)
    case None => data
    case Some(marker) => data[..marker] + data[SeparatorEnd(data, marker)..]
  }

  // ---------------------------------------------------------------------------
  // What is cut
  // ---------------------------------------------------------------------------

  ghost predicate Occurs(text: string, pattern: string) {
    exists k: nat :: OccursAt(text, pattern, k)
  }

  /** The first marker in a text that goes on with one behind `before` is that one. */
  ghost predicate NoMarkerBefore(before: string) {
    forall k: nat :: k < |before| ==> !OccursAt(before + RUN_SEPARATOR_PREFIX, RUN_SEPARATOR_PREFIX, k)
  }

  /** A marker and the rest of its line, without the line feed. */
  ghost predicate IsSeparator(line: string) {
    RUN_SEPARATOR_PREFIX <= line && '\n' !in line
  }

  lemma LineFeedAt(text: string, k: nat)
    ensures OccursAt(text, "\n", k) <==> k < |text| && text[k] == '\n'
  {
    if k < |text| {
      assert text[k..k + 1] == [text[k]];
    }
  }

  lemma PairAt(text: string, k: nat)
    ensures OccursAt(text, "\r\n", k) <==> k + 1 < |text| && text[k] == '\r' && text[k + 1] == '\n'
  {
    if k + 1 < |text| {
      assert text[k..k + 2] == [text[k], text[k + 1]];
    }
  }

  lemma MarkerIsFirst(before: string, line: string, after: string)
    requires NoMarkerBefore(before) && RUN_SEPARATOR_PREFIX <= line
    ensures IndexOf(before + line + after, RUN_SEPARATOR_PREFIX, 0) == Some(|before|)
  {
    var data, n := before + line + after, |RUN_SEPARATOR_PREFIX|;
    var head := before + RUN_SEPARATOR_PREFIX;
    assert data[..|head|] == head;
    assert data[|before|..|before| + n] == head[|before|..] == RUN_SEPARATOR_PREFIX;
    forall k: nat | k < |before| ensures !OccursAt(data, RUN_SEPARATOR_PREFIX, k) {
      assert data[k..k + n] == data[..|head|][k..k + n];
      assert !OccursAt(head, RUN_SEPARATOR_PREFIX, k);
    }
    assert OccursAt(data, RUN_SEPARATOR_PREFIX, |before|);
  }

  /** A line that is not ended is cut to the end. */
  lemma UnendedSeparatorIsStripped(before: string, line: string)
    requires NoMarkerBefore(before) && IsSeparator(line)
    ensures StripSeparator(before + line) == before
  {
    var data := before + line;
    assert before + line + "" == data;
    MarkerIsFirst(before, line, "");
    forall k: nat | k >= |before| ensures !OccursAt(data, "\n", k) && !OccursAt(data, "\r\n", k) {
      LineFeedAt(data, k);
      PairAt(data, k);
    }
    assert data[..|before|] + [] == before;
  }

  /** The removal undoes the insertion of a line exactly if the line ends in a carriage return and a line
      feed, or no such pair is in the text behind it. */
  lemma StripUndoesInsertionExactly(before: string, line: string, after: string)
    requires NoMarkerBefore(before) && IsSeparator(line)
    ensures StripSeparator(before + (line + "\n") + after) == before + after
       <==> line[|line| - 1] == '\r' || !Occurs(after, "\r\n")
  {
    var data, marker, end := before + (line + "\n") + after, |before|, |before| + |line| + 1;
    MarkerIsFirst(before, line + "\n", after);
    EndOfLine(before, line, after);
    assert data[..marker] == before && data[end..] == after;
  }

  /** A text without a marker is left alone. */
  lemma NoSeparatorNoChange(data: string)
    requires !Occurs(data, RUN_SEPARATOR_PREFIX)
    ensures StripSeparator(data) == data
  {}

  /** It happens: the line ends in a line feed alone, and a line of the text behind it is cut as well. */
  lemma MoreThanTheLineIsCutHappens()
    ensures StripSeparator(RUN_SEPARATOR_PREFIX + "1\na\r\nb") != "a\r\nb"
  {
    var line, after := RUN_SEPARATOR_PREFIX + "1", "a\r\nb";
    PairAt(after, 1);
    StripUndoesInsertionExactly("", line, after);
    assert "" + (line + "\n") + after == RUN_SEPARATOR_PREFIX + "1\na\r\nb";
    assert "" + after == after;
  }

  lemma EndOfLine(before: string, line: string, after: string)
    requires IsSeparator(line)
    ensures var end := SeparatorEnd(before + (line + "\n") + after, |before|);
            && |before| + |line| + 1 <= end
            && (end == |before| + |line| + 1 <==> line[|line| - 1] == '\r' || !Occurs(after, "\r\n"))
  {
    var data, marker, lineFeed := before + (line + "\n") + after, |before|, |before| + |line|;
    FirstLineFeed(before, line, after);
    PairsOfLine(before, line, after, lineFeed - 1);
    match IndexOf(data, "\r\n", marker)
    case None =>
      assert !OccursAt(data, "\r\n", lineFeed - 1);
      forall k: nat ensures !OccursAt(after, "\r\n", k) {
        PairsBehind(before + (line + "\n"), after, k);
        assert !OccursAt(data, "\r\n", lineFeed + 1 + k);
      }
    case Some(crlf) =>
      assert OccursAt(data, "\r\n", crlf);
      if crlf <= lineFeed {
        PairsOfLine(before, line, after, crlf);
      } else {
        PairsBehind(before + (line + "\n"), after, crlf - lineFeed - 1);
        assert Occurs(after, "\r\n");
      }
  }

  lemma FirstLineFeed(before: string, line: string, after: string)
    requires IsSeparator(line)
    ensures IndexOf(before + (line + "\n") + after, "\n", |before|) == Some(|before| + |line|)
  {
    var data, lineFeed := before + (line + "\n") + after, |before| + |line|;
    LineFeedAt(data, lineFeed);
    forall k: nat | |before| <= k < lineFeed ensures !OccursAt(data, "\n", k) {
      LineFeedAt(data, k);
      assert data[k] == line[k - |before|];
    }
  }

  /** Up to the line's end, the only pair can be that end. */
  lemma PairsOfLine(before: string, line: string, after: string, k: nat)
    requires IsSeparator(line) && |before| <= k <= |before| + |line|
    ensures OccursAt(before + (line + "\n") + after, "\r\n", k)
       <==> k == |before| + |line| - 1 && line[|line| - 1] == '\r'
  {
    var data := before + (line + "\n") + after;
    PairAt(data, k);
    assert data[k] == if k < |before| + |line| then line[k - |before|] else '\n';
    if k + 1 < |before| + |line| {
      assert data[k + 1] == line[k + 1 - |before|];
    }
  }

  lemma PairsBehind(front: string, after: string, k: nat)
    ensures OccursAt(after, "\r\n", k) <==> OccursAt(front + after, "\r\n", |front| + k)
  {
    PairAt(after, k);
    PairAt(front + after, |front| + k);
  }

  // ---------------------------------------------------------------------------
  // The backend's own separators
  // ---------------------------------------------------------------------------

  function ExitLabel(exitCode: Option<int>): string {
    match exitCode
    case None => "exit ?"
    case Some(code) => "exit " + if code < 0 then "-" + Decimal(-code) else Decimal(code)
  }

  /** The separator's line, without its end; `seconds` is the duration with one digit behind the point. */
  function SeparatorLine(visualSeq: nat, exitCode: Option<int>, seconds: string): string {
    RUN_SEPARATOR_PREFIX + (Decimal(visualSeq) + (" · " + (ExitLabel(exitCode) + (" · " + (seconds + "s ────")))))
  }

  /** `build_terminal_run_separator`: on a line of its own, with the prompt behind it. */
  function BuildRunSeparator(atLineStart: bool, visualSeq: nat, exitCode: Option<int>, seconds: string,
                             prompt: Option<string>): string {
    (if atLineStart then "" else "\r\n") + (SeparatorLine(visualSeq, exitCode, seconds) + "\r" + "\n")
    + if prompt.Some? then prompt.value else ""
  }

  lemma Digits()
    ensures Decimal(0) == "0" && Decimal(1) == "1" && Decimal(7) == "7"
  {
    assert "" + "0" == "0" && "" + "1" == "1" && "" + "7" == "7";
  }

  /** The verdict in the line: the exit code, a question mark where there is none. */
  lemma LabelsLookLikeThis()
    ensures ExitLabel(Some(0)) == "exit 0" && ExitLabel(Some(-1)) == "exit -1" && ExitLabel(None) == "exit ?"
  {
    Digits();
    assert "exit " + "0" == "exit 0";
    assert "-" + "1" == "-1" && "exit " + "-1" == "exit -1";
  }

  lemma DurationLooksLikeThis()
    ensures " · " + ("1.2" + "s ────") == " · 1.2s ────"
  {
  }

  lemma VerdictLooksLikeThis()
    ensures " · " + ("exit 0" + " · 1.2s ────") == " · exit 0 · 1.2s ────"
  {
    assert "exit 0" + " · 1.2s ────" == "exit 0 · 1.2s ────";
  }

  lemma FrontLooksLikeThis()
    ensures RUN_SEPARATOR_PREFIX + ("7" + " · exit 0 · 1.2s ────") == "──── run #7 · exit 0 · 1.2s ────"
  {
    assert "7" + " · exit 0 · 1.2s ────" == "7 · exit 0 · 1.2s ────";
  }

  /** The line, in an example. */
  lemma SeparatorLooksLikeThis()
    ensures SeparatorLine(7, Some(0), "1.2") == "──── run #7 · exit 0 · 1.2s ────"
  {
    Digits();
    LabelsLookLikeThis();
    DurationLooksLikeThis();
    VerdictLooksLikeThis();
    FrontLooksLikeThis();
  }

  lemma NoLineFeedInLabel(exitCode: Option<int>)
    ensures '\n' !in ExitLabel(exitCode)
  {
    if exitCode.Some? {
      var digits := Decimal(if exitCode.value < 0 then -exitCode.value else exitCode.value);
      assert forall i :: 0 <= i < |digits| ==> IsDigit(digits[i]);
    }
  }

  lemma SeparatorLineIsSeparator(visualSeq: nat, exitCode: Option<int>, seconds: string)
    requires '\n' !in seconds
    ensures IsSeparator(SeparatorLine(visualSeq, exitCode, seconds) + "\r")
  {
    NoLineFeedInLabel(exitCode);
    assert forall i :: 0 <= i < |Decimal(visualSeq)| ==> IsDigit(Decimal(visualSeq)[i]);
    assert '\n' !in Decimal(visualSeq);
    assert '\n' !in RUN_SEPARATOR_PREFIX;
  }

  lemma NoMarkerInFront(atLineStart: bool)
    ensures NoMarkerBefore(if atLineStart then "" else "\r\n")
  {
    var head := "\r\n" + RUN_SEPARATOR_PREFIX;
    forall k: nat | k < 2 ensures !OccursAt(head, RUN_SEPARATOR_PREFIX, k) {
      assert head[k..k + |RUN_SEPARATOR_PREFIX|][0] == head[k];
    }
  }

  /** Of every separator the backend builds, exactly the line is removed: the line break in front of it and the
      prompt stay, whatever the prompt is. */
  lemma BackendSeparatorIsStripped(atLineStart: bool, visualSeq: nat, exitCode: Option<int>, seconds: string,
                                   prompt: Option<string>)
    requires '\n' !in seconds
    ensures StripSeparator(BuildRunSeparator(atLineStart, visualSeq, exitCode, seconds, prompt))
         == (if atLineStart then "" else "\r\n") + if prompt.Some? then prompt.value else ""
  {
    var line := SeparatorLine(visualSeq, exitCode, seconds) + "\r";
    SeparatorLineIsSeparator(visualSeq, exitCode, seconds);
    NoMarkerInFront(atLineStart);
    StripUndoesInsertionExactly(if atLineStart then "" else "\r\n", line, if prompt.Some? then prompt.value else "");
  }
}
