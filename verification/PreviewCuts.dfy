/**
 Where a preview is cut (src/utils/text-preview.ts, 316-443): told from the graphemes of the text, for the whole
 of `clipTextPreview`.
 */
module PreviewCuts {
  import opened Prelude
  import opened TextPreview

  /** Of a text of these graphemes the first k are shown, of `room` that there is room for: up to the last end of a
      sentence in the last 55 percent, or without one up to the last soft break in the last 32 percent, with the closing
      quotes and brackets behind it; or, without either, as many as there is room for. */
  ghost predicate CutAt(graphemes: seq<string>, room: nat, k: nat) {
    var first := graphemes[..Min(room, |graphemes|)];
    var sentences, breaks := (room as real * 0.45).Floor, (room as real * 0.68).Floor;
    || (NoneFrom(first, HasSentenceEnd, sentences) && NoneFrom(first, HasSoftBreak, breaks) && k == |first|)
    || (NoneFrom(first, HasSentenceEnd, sentences) && CutBehind(graphemes, first, HasSoftBreak, breaks, room, k))
    || CutBehind(graphemes, first, HasSentenceEnd, sentences, room, k)
  }

  lemma BoundaryIsCut(text: string, room: nat)
    requires room > 0
    ensures CutAt(Graphemes(text), room, SemanticBoundary(text, room))
  {
    var graphemes := Graphemes(text);
    var first := FirstOf(graphemes, room);
    assert first == graphemes[..Min(room, |graphemes|)];
    BoundaryMeaning(graphemes, first, room, MinPreferredIndex(room), MinSoftIndex(room));
  }

  /** A cut is no shorter than the last end of a sentence that counts, and without one than the last soft break that
      does. */
  lemma CutIsNoShorter(graphemes: seq<string>, room: nat, k: nat, i: nat)
    requires CutAt(graphemes, room, k) && i < Min(room, |graphemes|)
    ensures (room as real * 0.45).Floor <= i && HasSentenceEnd(graphemes[i]) ==> i < k
    ensures (room as real * 0.68).Floor <= i && HasSoftBreak(graphemes[i]) ==>
              i < k || exists j :: (room as real * 0.45).Floor <= j < Min(room, |graphemes|) && HasSentenceEnd(graphemes[j])
  {
    var first := graphemes[..Min(room, |graphemes|)];
    assert first[i] == graphemes[i];
    forall j | 0 <= j < |first| && HasSentenceEnd(first[j]) ensures HasSentenceEnd(graphemes[j]) {
      assert first[j] == graphemes[j];
    }
  }

  lemma FirstOfItself(text: string, n: nat)
    requires IsNormalized(text) && Count(text) <= n
    ensures FirstGraphemes(text, n) == text
  {
    var g := Graphemes(text);
    assert (if n <= |g| then g[..n] else g) == g;
    GraphemesLossless(text);
    NormalizedIsTrimmed(text);
  }

  lemma NormalizedIsTrimmed(text: string)
    requires IsNormalized(text)
    ensures Trim(text) == text
  {
    TrimmedPrefix(text, |text|);
    assert text[..|text|] == text;
    NormalizedIsFixed(text);
  }

  /** A text that does not fit is shown up to such a cut, without the white space there, and then the ellipsis; where the
      ellipsis leaves no room or there is none, as many graphemes as fit. */
  lemma LongTextIsCutAt(value: string, limit: nat, ellipsis: string) returns (k: nat)
    requires Count(NormalizePreviewText(value)) > limit > 0
    ensures var graphemes := Graphemes(NormalizePreviewText(value));
            var preview := ClipTextPreview(value, Finite(limit as real), ellipsis);
            && k <= |graphemes|
            && (if 0 < Count(ellipsis) < limit then
                  CutAt(graphemes, limit - Count(ellipsis), k) && preview == Trim(Flatten(graphemes[..k])) + ellipsis
                else k == limit && preview == Trim(Flatten(graphemes[..k])))
  {
    var normalized := NormalizePreviewText(value);
    var graphemes := Graphemes(normalized);
    NormalizePreviewTextIsNormalized(value);
    k := limit;
    if 0 < Count(ellipsis) < limit {
      var room: nat := limit - Count(ellipsis);
      k := SemanticBoundary(normalized, room);
      BoundaryIsCut(normalized, room);
      ContentIsCut(normalized, room);
      AppendKeeps(ClippedContent(normalized, room), limit, ellipsis);
    }
  }

  lemma ContentIsCut(normalized: string, room: nat)
    requires IsNormalized(normalized) && normalized != "" && room > 0
    ensures var k := SemanticBoundary(normalized, room);
            ClippedContent(normalized, room) == Trim(Flatten(Graphemes(normalized)[..k]))
            && IsNormalized(ClippedContent(normalized, room)) && ClippedContent(normalized, room) != ""
            && Count(ClippedContent(normalized, room)) <= room
  {
    var k := SemanticBoundary(normalized, room);
    FirstGraphemesPrefix(normalized, k);
    FirstGraphemesCount(normalized, k);
  }

  lemma AppendKeeps(content: string, limit: nat, ellipsis: string)
    requires IsNormalized(content) && content != "" && 0 < Count(ellipsis) < limit && Count(content) <= limit - Count(ellipsis)
    ensures AppendEllipsisWithinBudget(content, limit, ellipsis) == content + ellipsis
  {
    NormalizedIsFixed(content);
    FirstOfItself(content, limit - Count(ellipsis));
  }
}
