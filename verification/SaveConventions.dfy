/**
 What saving does to a text (src/composables/useDocumentPersistence.ts, 40-44 and 65-79): line feeds only,
 no blanks at the end of a line and one newline at the end of the text, the last two if the settings say
 so. The promise is that a saved text satisfies the conventions, and that one that does is left alone.
 */
module SaveConventions {
  import opened Prelude

  datatype Settings = Settings(trimTrailingWhitespace: bool, insertFinalNewline: bool)

  predicate IsBlank(c: char) {
    c == '\t' || c == ' '
  }

  predicate IsNewline(c: char) {
    c == '\r' || c == '\n'
  }

  /** `line.replace(/[\t ]+$/u, '')`. */
  function TrimLine(line: string): string {
    if line != "" && IsBlank(line[|line| - 1]) then TrimLine(line[..|line| - 1]) else line
  }

  function TrimLines(lines: seq<string>): seq<string> {
    seq(|lines|, i requires 0 <= i < |lines| => TrimLine(lines[i]))
  }

  function TrimTrailingWhitespace(content: string): string {
    Join(TrimLines(Split(content, '\n')), '\n')
  }

  /** `text.replace(/[\r\n]+$/u, '')`. */
  function StripNewlines(text: string): string {
    if text != "" && IsNewline(text[|text| - 1]) then StripNewlines(text[..|text| - 1]) else text
  }

  function NormalizeForSave(content: string, settings: Settings): string {
    var unix := UnixLines(content);
    var trimmed := if settings.trimTrailingWhitespace then TrimTrailingWhitespace(unix) else unix;
    if settings.insertFinalNewline then (if trimmed != "" then StripNewlines(trimmed) + "\n" else "")
    else StripNewlines(trimmed)
  }

  // ---------------------------------------------------------------------------
  // The conventions
  // ---------------------------------------------------------------------------

  predicate EndsBlank(line: string) {
    line != "" && (line[|line| - 1] == ' ' || line[|line| - 1] == '\t')
  }

  ghost predicate NoLineEndsBlank(text: string) {
    forall i :: 0 <= i < |Split(text, '\n')| ==> !EndsBlank(Split(text, '\n')[i])
  }

  predicate EndsWithNewline(text: string) {
    text != "" && IsNewline(text[|text| - 1])
  }

  /** Stated without the code: no carriage return; no blanks at the end of a line, if they are trimmed; empty
      or exactly one newline at the end, or none at all. */
  ghost predicate Conventional(text: string, settings: Settings) {
    && '\r' !in text
    && (settings.trimTrailingWhitespace ==> NoLineEndsBlank(text))
    && (settings.insertFinalNewline ==> text == "" || (EndsWithNewline(text) && !EndsWithNewline(text[..|text| - 1])))
    && (!settings.insertFinalNewline ==> !EndsWithNewline(text))
  }

  // ---------------------------------------------------------------------------
  // Lines
  // ---------------------------------------------------------------------------

  lemma {:induction false} TrimLineShape(line: string)
    ensures TrimLine(line) <= line && !EndsBlank(TrimLine(line))
    ensures !EndsBlank(line) ==> TrimLine(line) == line
  {
    if EndsBlank(line) {
      TrimLineShape(line[..|line| - 1]);
    }
  }

  lemma {:induction false} StripNewlinesShape(text: string)
    ensures StripNewlines(text) <= text && !EndsWithNewline(StripNewlines(text))
    ensures !EndsWithNewline(text) ==> StripNewlines(text) == text
    ensures forall i :: |StripNewlines(text)| <= i < |text| ==> IsNewline(text[i])
  {
    if EndsWithNewline(text) {
      StripNewlinesShape(text[..|text| - 1]);
    }
  }

  /** Lines as `split` gives them. */
  ghost predicate AreLines(lines: seq<string>) {
    forall i :: 0 <= i < |lines| ==> '\n' !in lines[i] && '\r' !in lines[i]
  }

  function WithoutTrailingEmpty(lines: seq<string>): seq<string> {
    if lines != [] && lines[|lines| - 1] == "" then WithoutTrailingEmpty(lines[..|lines| - 1]) else lines
  }

  lemma {:induction false} JoinSnoc(lines: seq<string>, last: string, separator: char)
    requires lines != []
    ensures Join(lines + [last], separator) == Join(lines, separator) + [separator] + last
  {
    var all := lines + [last];
    assert all[1..] == lines[1..] + [last];
    if |lines| == 1 {
      assert all[1..] == [last];
    } else {
      JoinSnoc(lines[1..], last, separator);
    }
  }

  lemma {:induction false} WithoutTrailingEmptyShape(lines: seq<string>)
    ensures WithoutTrailingEmpty(lines) <= lines
    ensures var kept := WithoutTrailingEmpty(lines); kept != [] ==> kept[|kept| - 1] != ""
  {
    if lines != [] && lines[|lines| - 1] == "" {
      WithoutTrailingEmptyShape(lines[..|lines| - 1]);
    }
  }

  /** Stripping newlines off a text drops its empty last lines. */
  lemma {:induction false} StripDropsEmptyLines(lines: seq<string>)
    requires AreLines(lines)
    ensures StripNewlines(Join(lines, '\n')) == Join(WithoutTrailingEmpty(lines), '\n')
  {
    if lines != [] {
      var front, last := lines[..|lines| - 1], lines[|lines| - 1];
      assert lines == front + [last];
      if front != [] {
        JoinSnoc(front, last, '\n');
      }
      if last == "" {
        StripDropsEmptyLines(front);
        assert front != [] ==> Join(lines, '\n')[..|Join(lines, '\n')| - 1] == Join(front, '\n');
      } else {
        assert last[|last| - 1] in last;
        StripNewlinesShape(Join(lines, '\n'));
      }
    }
  }

  lemma {:induction false} JoinHasNoReturn(lines: seq<string>)
    requires AreLines(lines)
    ensures '\r' !in Join(lines, '\n')
  {
    if |lines| > 1 {
      JoinHasNoReturn(lines[1..]);
    }
  }

  lemma {:induction false} SplitKeepsOut(text: string, c: char)
    requires c !in text
    ensures forall i :: 0 <= i < |Split(text, '\n')| ==> c !in Split(text, '\n')[i]
  {
    if text != "" {
      assert text == [text[0]] + text[1..];
      SplitKeepsOut(text[1..], c);
    }
  }

  /** The lines a saved text is made of: those of the document, trimmed if the settings say so. */
  function SavedLines(content: string, settings: Settings): seq<string> {
    var lines := Split(UnixLines(content), '\n');
    if settings.trimTrailingWhitespace then TrimLines(lines) else lines
  }

  lemma SavedLinesAreLines(content: string, settings: Settings)
    ensures AreLines(SavedLines(content, settings))
    ensures settings.trimTrailingWhitespace ==> forall i :: 0 <= i < |SavedLines(content, settings)| ==> !EndsBlank(SavedLines(content, settings)[i])
  {
    var lines := Split(UnixLines(content), '\n');
    UnixLinesShape(content);
    SplitKeepsOut(UnixLines(content), '\r');
    forall i | 0 <= i < |lines| ensures !EndsBlank(TrimLine(lines[i])) && '\n' !in TrimLine(lines[i]) && '\r' !in TrimLine(lines[i]) {
      TrimLineShape(lines[i]);
    }
  }

  /** Saving, line by line: the document's lines without the empty ones at the end, and a final newline if
      there was anything at all. Nothing else is lost, added or moved. */
  lemma NormalizeIsLineWise(content: string, settings: Settings)
    ensures var lines := SavedLines(content, settings);
            var text := Join(WithoutTrailingEmpty(lines), '\n');
            NormalizeForSave(content, settings) == if settings.insertFinalNewline && lines != [""] then text + "\n" else text
  {
    var lines := SavedLines(content, settings);
    SavedLinesAreLines(content, settings);
    JoinSplit(UnixLines(content), '\n');
    assert lines != [];
    StripDropsEmptyLines(lines);
    if lines == [""] {
      assert lines[..0] == [];
    } else if |lines| > 1 {
      assert '\n' in Join(lines, '\n');
    }
  }

  /** The lines of the saved text itself. */
  lemma LinesOfSaved(lines: seq<string>, newline: bool)
    requires AreLines(lines)
    ensures var text := Join(lines, '\n') + if newline then "\n" else "";
            var expected := (if lines == [] then [""] else lines) + if newline then [""] else [];
            Split(text, '\n') == expected
  {
    var some := if lines == [] then [""] else lines;
    assert Join(some, '\n') == Join(lines, '\n');
    if newline {
      JoinSnoc(some, "", '\n');
      assert Join(some, '\n') + ['\n'] + "" == Join(some, '\n') + "\n";
      SplitJoin(some + [""], '\n');
    } else {
      SplitJoin(some, '\n');
      assert Join(some, '\n') + "" == Join(some, '\n');
    }
  }

  // ---------------------------------------------------------------------------
  // The promise
  // ---------------------------------------------------------------------------

  lemma EndsLikeLast(text: string, before: string, last: string)
    requires text == before + last && last != "" && '\n' !in last && '\r' !in last
    ensures text != "" && !EndsWithNewline(text)
  {
    assert text[|text| - 1] == last[|last| - 1];
    assert last[|last| - 1] in last;
  }

  lemma LastLineEnds(lines: seq<string>)
    requires AreLines(lines) && lines != [] && lines[|lines| - 1] != ""
    ensures !EndsWithNewline(Join(lines, '\n')) && Join(lines, '\n') != ""
  {
    var front, last := lines[..|lines| - 1], lines[|lines| - 1];
    assert lines == front + [last];
    if front == [] {
      EndsLikeLast(last, "", last);
    } else {
      JoinSnoc(front, last, '\n');
      EndsLikeLast(Join(lines, '\n'), Join(front, '\n') + ['\n'], last);
    }
  }

  /** A text made of such lines satisfies the conventions, with or without a newline after them. */
  lemma MadeOfLines(lines: seq<string>, settings: Settings)
    requires AreLines(lines) && (lines != [] ==> lines[|lines| - 1] != "")
    requires settings.trimTrailingWhitespace ==> forall i :: 0 <= i < |lines| ==> !EndsBlank(lines[i])
    ensures !settings.insertFinalNewline || lines == [] ==> Conventional(Join(lines, '\n'), settings)
  {
    var joined := Join(lines, '\n');
    LinesOfSaved(lines, false);
    assert joined + "" == joined;
    JoinHasNoReturn(lines);
    if lines != [] {
      LastLineEnds(lines);
    }
  }

  lemma MadeOfLinesAndNewline(lines: seq<string>, settings: Settings)
    requires AreLines(lines) && (lines != [] ==> lines[|lines| - 1] != "") && settings.insertFinalNewline
    requires settings.trimTrailingWhitespace ==> forall i :: 0 <= i < |lines| ==> !EndsBlank(lines[i])
    ensures Conventional(Join(lines, '\n') + "\n", settings)
  {
    var joined := Join(lines, '\n');
    var text := joined + "\n";
    LinesOfSaved(lines, true);
    JoinHasNoReturn(lines);
    if lines != [] {
      LastLineEnds(lines);
    }
    assert text[..|text| - 1] == joined && EndsWithNewline(text);
  }

  /** Every saved text satisfies the conventions. */
  lemma NormalizeIsConventional(content: string, settings: Settings)
    ensures Conventional(NormalizeForSave(content, settings), settings)
  {
    var lines := SavedLines(content, settings);
    var kept := WithoutTrailingEmpty(lines);
    var newline := settings.insertFinalNewline && lines != [""];
    NormalizeIsLineWise(content, settings);
    SavedLinesAreLines(content, settings);
    WithoutTrailingEmptyShape(lines);
    assert lines == [""] ==> kept == [];
    if newline {
      MadeOfLinesAndNewline(kept, settings);
    } else {
      MadeOfLines(kept, settings);
    }
  }

  lemma TrimmedLinesAreFixed(lines: seq<string>)
    requires forall i :: 0 <= i < |lines| ==> !EndsBlank(lines[i])
    ensures TrimLines(lines) == lines
  {
    forall i | 0 <= i < |lines| ensures TrimLine(lines[i]) == lines[i] {
      TrimLineShape(lines[i]);
    }
  }

  /** Saving changes a text exactly if it does not satisfy the conventions. */
  lemma FixedExactlyIfConventional(text: string, settings: Settings)
    ensures NormalizeForSave(text, settings) == text <==> Conventional(text, settings)
  {
    NormalizeIsConventional(text, settings);
    if Conventional(text, settings) {
      UnixLinesShape(text);
      JoinSplit(text, '\n');
      if settings.trimTrailingWhitespace {
        TrimmedLinesAreFixed(Split(text, '\n'));
      }
      StripNewlinesShape(text);
      if EndsWithNewline(text) {
        StripNewlinesShape(text[..|text| - 1]);
        assert text[|text| - 1] in text;
        assert text == text[..|text| - 1] + "\n";
      }
    }
  }

  /** Saving twice is saving once, under all settings. */
  lemma NormalizeTwice(content: string, settings: Settings)
    ensures NormalizeForSave(NormalizeForSave(content, settings), settings) == NormalizeForSave(content, settings)
  {
    NormalizeIsConventional(content, settings);
    FixedExactlyIfConventional(NormalizeForSave(content, settings), settings);
  }
}
