/**
 The characters that previews go by (src/utils/text-preview.ts, 128-185, 314 and 382-383): which belong together, and
 which end a sentence, allow a break, or close what was opened.
 */
module PreviewCharacters {
  import opened Prelude
  import opened TextPreview

  lemma CombiningMarksExactly(c: char)
    ensures InRanges(c, COMBINING_MARKS)
       <==> var code := c as int;
            || 0x0300 <= code <= 0x036f || 0x1ab0 <= code <= 0x1aff || 0x1dc0 <= code <= 0x1dff || 0x20d0 <= code <= 0x20ff
            || 0xfe20 <= code <= 0xfe2f
  {
    var ranges := COMBINING_MARKS;
    assert ranges[0] == (0x0300, 0x036f) && ranges[1] == (0x1ab0, 0x1aff) && ranges[2] == (0x1dc0, 0x1dff);
    assert ranges[3] == (0x20d0, 0x20ff) && ranges[4] == (0xfe20, 0xfe2f);
    InRangesExists(c, ranges);
  }

  /** Two characters are one grapheme exactly if there is a joiner among them, or the second is a combining mark, a
      variation selector or the modifier of an emoji. */
  lemma OneGraphemeExactly(a: char, b: char)
    ensures Count([a, b]) == 1
       <==> var code := b as int;
            || a == '\U{200D}' || b == '\U{200D}'
            || 0x0300 <= code <= 0x036f || 0x1ab0 <= code <= 0x1aff || 0x1dc0 <= code <= 0x1dff || 0x20d0 <= code <= 0x20ff
            || 0xfe20 <= code <= 0xfe2f || 0xfe00 <= code <= 0xfe0f || 0x1f3fb <= code <= 0x1f3ff
    ensures Count([a, b]) == 1 || Graphemes([a, b]) == [[a], [b]]
  {
    CombiningMarksExactly(b);
    InRangesExists(b, VARIATION_SELECTORS);
    InRangesExists(b, EMOJI_MODIFIERS);
    assert VARIATION_SELECTORS[0] == (0xfe00, 0xfe0f) && EMOJI_MODIFIERS[0] == (0x1f3fb, 0x1f3ff);
    GraphemesSnoc([a], b);
    assert [a] + [b] == [a, b];
  }

  /** A grapheme ends a sentence if one of its characters does. */
  lemma SentenceEndsExactly(grapheme: string)
    ensures HasSentenceEnd(grapheme)
       <==> '。' in grapheme || '！' in grapheme || '？' in grapheme || '!' in grapheme || '?' in grapheme
            || '；' in grapheme || ';' in grapheme
  {
    if '。' in grapheme || '！' in grapheme || '？' in grapheme || '!' in grapheme || '?' in grapheme || '；' in grapheme || ';' in grapheme {
      var i :| 0 <= i < |grapheme| && IsSentenceEnd(grapheme[i]);
    }
  }

  /** A grapheme allows a break if one of its characters does. */
  lemma SoftBreaksExactly(grapheme: string)
    ensures HasSoftBreak(grapheme)
       <==> '，' in grapheme || ',' in grapheme || '、' in grapheme || '：' in grapheme || ':' in grapheme
            || exists i :: 0 <= i < |grapheme| && IsSpace(grapheme[i])
  {
    if '，' in grapheme || ',' in grapheme || '、' in grapheme || '：' in grapheme || ':' in grapheme {
      var i :| 0 <= i < |grapheme| && IsSoftBreak(grapheme[i]);
    }
  }

  /** A grapheme closes if all its characters do. */
  lemma ClosersExactly(c: char)
    ensures IsTrailingCloser([c])
       <==> || c == '”' || c == '’' || c == '」' || c == '』' || c == '）' || c == '》' || c == '】' || c == '〕' || c == '〉'
            || c == ']' || c == '}' || c == ')'
    ensures !IsTrailingCloser("")
  {
    assert [c][0] == c;
  }

  /** Characters that close together close each on its own. */
  lemma ClosersTogether(a: string, b: string)
    requires a != "" && b != ""
    ensures IsTrailingCloser(a + b) <==> IsTrailingCloser(a) && IsTrailingCloser(b)
  {
    var both := a + b;
    assert forall i :: 0 <= i < |a| ==> both[i] == a[i];
    assert forall i :: 0 <= i < |b| ==> both[|a| + i] == b[i];
  }
}
