/**
 Graphemes and clipped previews (src/utils/text-preview.ts, 62-69, 137-185, 232-332 and 371-445).

 Text is counted in graphemes by the fallback segmenter, which is what the code uses where
 `Intl.Segmenter` is missing; there is then no sentence and no word segmenter either. Texts are taken
 to be in normalisation form C. The promise is a hard bound: a preview never has more graphemes than
 it was given, ellipsis included, on any branch.
 */
module TextPreview {
  import opened Prelude

  // ---------------------------------------------------------------------------
  // The fallback segmenter
  // ---------------------------------------------------------------------------

  const ZERO_WIDTH_JOINER: char := '\U{200D}'

  const COMBINING_MARKS: Ranges := [(0x0300, 0x036f), (0x1ab0, 0x1aff), (0x1dc0, 0x1dff), (0x20d0, 0x20ff), (0xfe20, 0xfe2f)]
  const VARIATION_SELECTORS: Ranges := [(0xfe00, 0xfe0f)]
  const EMOJI_MODIFIERS: Ranges := [(0x1f3fb, 0x1f3ff)]

  predicate IsExtender(c: char) {
    InRanges(c, COMBINING_MARKS) || InRanges(c, VARIATION_SELECTORS) || InRanges(c, EMOJI_MODIFIERS)
  }

  /** `c` stays in the cluster of the character before it. */
  predicate Glued(previous: char, c: char) {
    c == ZERO_WIDTH_JOINER || previous == ZERO_WIDTH_JOINER || IsExtender(c)
  }

  /** One more character: it joins the last cluster, or starts a new one. */
  function Extend(g: seq<string>, c: char, glued: bool): seq<string>
    requires g != []
  {
    if glued then g[..|g| - 1] + [g[|g| - 1] + [c]] else g + [[c]]
  }

  function Graphemes(text: string): (g: seq<string>)
    ensures g == [] <==> text == ""
  {
    if text == "" then []
    else
      var n := |text| - 1;
      if n == 0 then [text]
      else Extend(Graphemes(text[..n]), text[n], Glued(text[n - 1], text[n]))
  }

  function Count(text: string): nat {
    |Graphemes(text)|
  }

  lemma GraphemesSnoc(text: string, c: char)
    ensures text == "" ==> Graphemes(text + [c]) == [[c]]
    ensures text != "" ==> Graphemes(text + [c]) == Extend(Graphemes(text), c, Glued(text[|text| - 1], c))
  {
    var longer := text + [c];
    var n := |text|;
    if n == 0 {
      assert longer == [c];
    } else {
      assert longer[..n] == text && longer[n] == c && longer[n - 1] == text[n - 1];
      assert Graphemes(longer) == Extend(Graphemes(longer[..n]), longer[n], Glued(longer[n - 1], longer[n]));
    }
  }

  lemma {:induction false} FirstGraphemeNonEmpty(text: string)
    requires text != ""
    ensures Graphemes(text)[0] != ""
  {
    if |text| > 1 {
      FirstGraphemeNonEmpty(text[..|text| - 1]);
    }
  }

  method SplitGraphemesFallback(value: string) returns (graphemes: seq<string>)
    ensures graphemes == Graphemes(value)
  {
    graphemes := [];
    var current := "";
    for i := 0 to |value|
      invariant current == "" <==> i == 0
      invariant i > 0 ==> current[|current| - 1] == value[i - 1]
      invariant Graphemes(value[..i]) == graphemes + if current == "" then [] else [current]
    {
      var codePoint := value[i];
      assert value[..i + 1] == value[..i] + [codePoint];
      GraphemesSnoc(value[..i], codePoint);
      if current != "" {
        assert (graphemes + [current])[..|graphemes|] == graphemes;
      }
      if current == "" {
        current := [codePoint];
      } else if Glued(current[|current| - 1], codePoint) {
        current := current + [codePoint];
      } else {
        graphemes := graphemes + [current];
        current := [codePoint];
      }
    }
    assert value[..|value|] == value;
    if current != "" {
      graphemes := graphemes + [current];
    }
  }

  lemma FlattenExtend(g: seq<string>, c: char, glued: bool)
    requires g != []
    ensures Flatten(Extend(g, c, glued)) == Flatten(g) + [c]
  {
    if glued {
      var front, last := g[..|g| - 1], g[|g| - 1];
      assert g == front + [last];
      FlattenOne(front, last);
      FlattenOne(front, last + [c]);
    } else {
      FlattenOne(g, [c]);
    }
  }

  /** The clusters, put together again, are the text. */
  lemma {:induction false} GraphemesLossless(text: string)
    ensures Flatten(Graphemes(text)) == text
  {
    if text != "" {
      var n := |text| - 1;
      if n == 0 {
        FlattenOne([], text);
        assert [] + [text] == [text];
      } else {
        GraphemesLossless(text[..n]);
        FlattenExtend(Graphemes(text[..n]), text[n], Glued(text[n - 1], text[n]));
      }
    }
  }

  /** Splitting is stable: the first k clusters of a text are the clusters of what they cover. */
  lemma {:induction false} GraphemesOfPrefix(text: string, k: nat)
    requires k <= Count(text)
    ensures Graphemes(Flatten(Graphemes(text)[..k])) == Graphemes(text)[..k]
  {
    var g := Graphemes(text);
    if k == |g| {
      assert g[..k] == g;
      GraphemesLossless(text);
    } else {
      var n := |text| - 1;
      var before := Graphemes(text[..n]);
      assert g[..k] == before[..k];
      GraphemesOfPrefix(text[..n], k);
    }
  }

  /** Splitting a concatenation: only the two clusters that meet can become one. */
  lemma {:induction false} GraphemesConcat(a: string, b: string)
    requires a != "" && b != ""
    ensures var ga, gb := Graphemes(a), Graphemes(b);
            Graphemes(a + b) == Meet(ga, gb, Glued(a[|a| - 1], b[0]))
    decreases |b|
  {
    var n := |b| - 1;
    var shorter, c := b[..n], b[n];
    assert b == shorter + [c];
    assert a + b == (a + shorter) + [c];
    GraphemesSnoc(a + shorter, c);
    GraphemesSnoc(shorter, c);
    if n == 0 {
      assert a + shorter == a;
      assert Graphemes(b) == [[c]];
    } else {
      GraphemesConcat(a, shorter);
      assert (a + shorter)[|a + shorter| - 1] == shorter[n - 1];
      GraphemesConcatStep(Graphemes(a), Graphemes(shorter), c,
                          Glued(a[|a| - 1], b[0]), Glued(shorter[n - 1], c));
    }
  }

  /** Two clusters or lists of clusters, joined at the seam if they are glued. */
  function Meet(ga: seq<string>, gb: seq<string>, glued: bool): seq<string>
    requires ga != [] && gb != []
  {
    if glued then ga[..|ga| - 1] + [ga[|ga| - 1] + gb[0]] + gb[1..] else ga + gb
  }

  lemma GraphemesConcatStep(ga: seq<string>, gb: seq<string>, c: char, seam: bool, end: bool)
    requires ga != [] && gb != []
    ensures Extend(Meet(ga, gb, seam), c, end) == Meet(ga, Extend(gb, c, end), seam)
  {
    if end && |gb| == 1 && seam {
      SeamClusterGrows(ga, gb[0], c);
      assert gb == [gb[0]];
    }
  }

  lemma SeamClusterGrows(ga: seq<string>, cluster: string, c: char)
    requires ga != []
    ensures Extend(Meet(ga, [cluster], true), c, true) == Meet(ga, [cluster + [c]], true)
  {
    var front, last := ga[..|ga| - 1], ga[|ga| - 1];
    var met := Meet(ga, [cluster], true);
    assert met == front + [last + cluster];
    assert met[..|met| - 1] == front;
    ConcatAssociates(last, cluster, [c]);
    assert Meet(ga, [cluster + [c]], true) == front + [last + (cluster + [c])];
  }

  lemma CountConcat(a: string, b: string)
    requires a != "" && b != ""
    ensures Count(a + b) == Count(a) + Count(b) - (if Glued(a[|a| - 1], b[0]) then 1 else 0)
  {
    GraphemesConcat(a, b);
  }

  lemma CountSubadditive(a: string, b: string)
    ensures Count(a + b) <= Count(a) + Count(b)
  {
    if a == "" {
      assert a + b == b;
    } else if b == "" {
      assert a + b == a;
    } else {
      CountConcat(a, b);
    }
  }

  lemma CountOne(c: char)
    ensures Count([c]) == 1
  {
    assert [c][..0] == "";
  }

  // ---------------------------------------------------------------------------
  // White space
  // ---------------------------------------------------------------------------

  /** `text.replace(/\s+/gu, ' ')`. */
  function CollapseSpaces(text: string): string
    decreases |text|
  {
    if text == "" then ""
    else if IsSpace(text[0]) then
      TrimStartShape(text);
      " " + CollapseSpaces(TrimStart(text))
    else [text[0]] + CollapseSpaces(text[1..])
  }

  function NormalizePreviewText(value: string): string {
    Trim(CollapseSpaces(value))
  }

  /** Single spaces between words, none around. */
  ghost predicate IsNormalized(text: string) {
    && (text != "" ==> !IsSpace(text[0]) && !IsSpace(text[|text| - 1]))
    && OnlySingleSpaces(text)
  }

  ghost predicate OnlySingleSpaces(text: string) {
    && (forall i :: 0 <= i < |text| && IsSpace(text[i]) ==> text[i] == ' ')
    && (forall i :: 0 < i < |text| ==> !(IsSpace(text[i - 1]) && IsSpace(text[i])))
  }

  lemma {:induction false} CollapseSpacesHead(text: string)
    ensures (CollapseSpaces(text) == "") == (text == "")
    ensures text != "" ==>
              if IsSpace(text[0]) then CollapseSpaces(text)[0] == ' ' else CollapseSpaces(text)[0] == text[0]
  {}

  lemma {:induction false} CollapseSpacesSingle(text: string)
    ensures OnlySingleSpaces(CollapseSpaces(text))
    decreases |text|
  {
    if text != "" {
      TrimStartShape(text);
      var rest := if IsSpace(text[0]) then TrimStart(text) else text[1..];
      CollapseSpacesSingle(rest);
      CollapseSpacesHead(rest);
      var out := CollapseSpaces(text);
      assert out[1..] == CollapseSpaces(rest);
      forall i | 0 < i < |out| ensures !(IsSpace(out[i - 1]) && IsSpace(out[i])) {
        assert out[i] == out[1..][i - 1];
        if i > 1 {
          assert out[i - 1] == out[1..][i - 2];
        }
      }
      forall i | 0 <= i < |out| && IsSpace(out[i]) ensures out[i] == ' ' {
        if i > 0 {
          assert out[i] == out[1..][i - 1];
        }
      }
    }
  }

  lemma SingleSpacesSlice(text: string, low: nat, high: nat)
    requires OnlySingleSpaces(text) && low <= high <= |text|
    ensures OnlySingleSpaces(text[low..high])
  {
    var t := text[low..high];
    forall i | 0 <= i < |t| && IsSpace(t[i]) ensures t[i] == ' ' {
      assert t[i] == text[low + i];
    }
    forall i | 0 < i < |t| ensures !(IsSpace(t[i - 1]) && IsSpace(t[i])) {
      assert t[i - 1] == text[low + i - 1] && t[i] == text[low + i];
    }
  }

  lemma TrimStartSingle(text: string)
    requires OnlySingleSpaces(text)
    ensures OnlySingleSpaces(TrimStart(text))
    ensures TrimStart(text) != "" ==> !IsSpace(TrimStart(text)[0])
  {
    TrimStartShape(text);
    var k :| 0 <= k <= |text| && TrimStart(text) == text[k..] && forall i :: 0 <= i < k ==> IsSpace(text[i]);
    assert text[k..] == text[k..|text|];
    SingleSpacesSlice(text, k, |text|);
  }

  lemma TrimEndSingle(text: string)
    requires OnlySingleSpaces(text) && (text != "" ==> !IsSpace(text[0]))
    ensures IsNormalized(TrimEnd(text))
  {
    TrimEndShape(text);
    SingleSpacesSlice(text, 0, |TrimEnd(text)|);
    assert TrimEnd(text) == text[0..|TrimEnd(text)|];
  }

  lemma TrimIsNormalized(text: string)
    requires OnlySingleSpaces(text)
    ensures IsNormalized(Trim(text))
  {
    TrimStartSingle(text);
    TrimEndSingle(TrimStart(text));
  }

  lemma NormalizePreviewTextIsNormalized(value: string)
    ensures IsNormalized(NormalizePreviewText(value))
  {
    CollapseSpacesSingle(value);
    TrimIsNormalized(CollapseSpaces(value));
  }

  lemma {:induction false} CollapseSpacesIdentity(text: string)
    requires OnlySingleSpaces(text)
    ensures CollapseSpaces(text) == text
    decreases |text|
  {
    if text != "" {
      assert OnlySingleSpaces(text[1..]) by {
        forall i | 0 < i < |text[1..]| ensures !(IsSpace(text[1..][i - 1]) && IsSpace(text[1..][i])) {
          assert text[1..][i - 1] == text[i] && text[1..][i] == text[i + 1];
        }
      }
      CollapseSpacesIdentity(text[1..]);
      if IsSpace(text[0]) {
        assert TrimStart(text) == TrimStart(text[1..]);
        assert |text| > 1 ==> !IsSpace(text[1]);
        assert TrimStart(text[1..]) == text[1..];
      }
    }
  }

  /** A normalised text is left alone; so normalising twice is normalising once. */
  lemma NormalizedIsFixed(text: string)
    requires IsNormalized(text)
    ensures NormalizePreviewText(text) == text
  {
    CollapseSpacesIdentity(text);
  }

  /** Cutting a normalised text short and trimming the end leaves a normalised text. */
  lemma TrimmedPrefix(text: string, n: nat)
    requires IsNormalized(text) && n <= |text|
    ensures IsNormalized(Trim(text[..n])) && Trim(text[..n]) <= text
    ensures n > 0 ==> Trim(text[..n]) != ""
  {
    var cut := text[..n];
    assert n > 0 ==> cut[0] == text[0];
    assert TrimStart(cut) == cut;
    TrimEndShape(cut);
    TrimEndKeepsInk(cut);
    var t := TrimEnd(cut);
    assert t <= text;
    assert OnlySingleSpaces(t) by {
      forall i | 0 < i < |t| ensures !(IsSpace(t[i - 1]) && IsSpace(t[i])) {
        assert t[i - 1] == text[i - 1] && t[i] == text[i];
      }
    }
  }

  // ---------------------------------------------------------------------------
  // White space never adds graphemes by being removed
  // ---------------------------------------------------------------------------

  lemma CountDropFirst(text: string)
    requires text != ""
    ensures Count(text[1..]) <= Count(text)
  {
    if |text| > 1 {
      assert text == [text[0]] + text[1..];
      CountOne(text[0]);
      CountConcat([text[0]], text[1..]);
    }
  }

  lemma {:induction false} CountTrim(text: string)
    ensures Count(Trim(text)) <= Count(text)
  {
    CountTrimStart(text);
    CountTrimEnd(TrimStart(text));
  }

  lemma {:induction false} CountTrimStart(text: string)
    ensures Count(TrimStart(text)) <= Count(text)
  {
    if text != "" && IsSpace(text[0]) {
      CountTrimStart(text[1..]);
      CountDropFirst(text);
    }
  }

  lemma {:induction false} CountTrimEnd(text: string)
    ensures Count(TrimEnd(text)) <= Count(text)
  {
    if text != "" && IsSpace(text[|text| - 1]) {
      CountTrimEnd(text[..|text| - 1]);
    }
  }

  predicate IsSpaceCode(code: int) {
    || code == 0x20 || 0x09 <= code <= 0x0d || code == 0xa0 || code == 0x1680 || 0x2000 <= code <= 0x200a
    || 0x2028 <= code <= 0x2029 || code == 0x202f || code == 0x205f || code == 0x3000 || code == 0xfeff
  }

  lemma SpaceCode(c: char)
    requires IsSpace(c)
    ensures IsSpaceCode(c as int)
  {
    InRangesExists(c, WHITE_SPACE);
    var i :| 0 <= i < |WHITE_SPACE| && WHITE_SPACE[i].0 <= c as int <= WHITE_SPACE[i].1;
  }

  lemma ExtenderRanges(c: char, ranges: Ranges)
    requires InRanges(c, ranges) && (ranges == COMBINING_MARKS || ranges == VARIATION_SELECTORS || ranges == EMOJI_MODIFIERS)
    ensures !IsSpaceCode(c as int)
  {
    InRangesExists(c, ranges);
    var i :| 0 <= i < |ranges| && ranges[i].0 <= c as int <= ranges[i].1;
  }

  /** White space is never glued to what comes before it, except by a joiner. */
  lemma SpaceIsNoExtender(c: char)
    requires IsSpace(c)
    ensures c != ZERO_WIDTH_JOINER && !IsExtender(c)
  {
    SpaceCode(c);
    if InRanges(c, COMBINING_MARKS) {
      ExtenderRanges(c, COMBINING_MARKS);
    } else if InRanges(c, VARIATION_SELECTORS) {
      ExtenderRanges(c, VARIATION_SELECTORS);
    } else if InRanges(c, EMOJI_MODIFIERS) {
      ExtenderRanges(c, EMOJI_MODIFIERS);
    }
  }

  lemma GluedAlike(p: char, c: char, q: char, d: char)
    requires p == q || (IsSpace(p) && IsSpace(q))
    requires c == d || (IsSpace(c) && IsSpace(d))
    ensures Glued(p, c) == Glued(q, d)
  {
    if p != q {
      SpaceIsNoExtender(p);
      SpaceIsNoExtender(q);
    }
    if c != d {
      SpaceIsNoExtender(c);
      SpaceIsNoExtender(d);
    }
  }

  /** The text is a run of white space, or one other character, and the rest; the run collapses to `head`. */
  lemma CollapseStep(text: string) returns (run: string, head: char, rest: string)
    requires text != ""
    ensures run != "" && text == run + rest && |rest| < |text|
    ensures CollapseSpaces(text) == [head] + CollapseSpaces(rest)
    ensures var last := run[|run| - 1]; head == last || (IsSpace(head) && IsSpace(last))
    ensures rest != "" ==> var c, d := CollapseSpaces(rest), rest[0]; c != "" && (c[0] == d || (IsSpace(c[0]) && IsSpace(d)))
  {
    if IsSpace(text[0]) {
      TrimStartShape(text);
      var k :| 0 <= k <= |text| && TrimStart(text) == text[k..] && forall i :: 0 <= i < k ==> IsSpace(text[i]);
      run, head, rest := text[..k], ' ', text[k..];
    } else {
      run, head, rest := text[..1], text[0], text[1..];
    }
    CollapseSpacesHead(rest);
  }

  lemma {:induction false} CountCollapse(text: string)
    ensures Count(CollapseSpaces(text)) <= Count(text)
    decreases |text|
  {
    if text != "" {
      var run, head, rest := CollapseStep(text);
      CountCollapse(rest);
      CountOne(head);
      var collapsed := CollapseSpaces(rest);
      if rest == "" {
        assert [head] + collapsed == [head];
      } else {
        CountConcat([head], collapsed);
        CountConcat(run, rest);
        GluedAlike(run[|run| - 1], rest[0], head, collapsed[0]);
      }
    }
  }

  lemma CountNormalize(value: string)
    ensures Count(NormalizePreviewText(value)) <= Count(value)
  {
    CountCollapse(value);
    CountTrim(CollapseSpaces(value));
  }

  // ---------------------------------------------------------------------------
  // Boundaries
  // ---------------------------------------------------------------------------

  predicate IsSentenceEnd(c: char) {
    c in "。！？!?；;"
  }

  predicate IsSoftBreak(c: char) {
    c in "，,、：:" || IsSpace(c)
  }

  predicate IsCloser(c: char) {
    c in "”’」』）》】〕〉》]})"
  }

  predicate HasSentenceEnd(grapheme: string) {
    exists i :: 0 <= i < |grapheme| && IsSentenceEnd(grapheme[i])
  }

  predicate HasSoftBreak(grapheme: string) {
    exists i :: 0 <= i < |grapheme| && IsSoftBreak(grapheme[i])
  }

  predicate IsTrailingCloser(grapheme: string) {
    grapheme != "" && forall i :: 0 <= i < |grapheme| ==> IsCloser(grapheme[i])
  }

  /** `next` closes everything that can be closed after `boundary`. */
  ghost predicate ClosersIncluded(graphemes: seq<string>, boundary: nat, limit: nat, next: nat) {
    && boundary <= next && (next > boundary ==> next <= limit && next <= |graphemes|)
    && (forall i :: boundary <= i < next ==> i < |graphemes| && IsTrailingCloser(graphemes[i]))
    && (next < limit && next < |graphemes| ==> !IsTrailingCloser(graphemes[next]))
  }

  function WithTrailingClosers(graphemes: seq<string>, boundary: nat, limit: nat): (next: nat)
    ensures ClosersIncluded(graphemes, boundary, limit, next)
    decreases limit - boundary
  {
    if boundary < limit && boundary < |graphemes| && IsTrailingCloser(graphemes[boundary])
    then WithTrailingClosers(graphemes, boundary + 1, limit) else boundary
  }

  method IncludeTrailingClosers(graphemes: seq<string>, boundary: nat, limit: nat) returns (nextBoundary: nat)
    ensures nextBoundary == WithTrailingClosers(graphemes, boundary, limit)
  {
    nextBoundary := boundary;
    while nextBoundary < limit && nextBoundary < |graphemes| && IsTrailingCloser(graphemes[nextBoundary])
      invariant WithTrailingClosers(graphemes, nextBoundary, limit) == WithTrailingClosers(graphemes, boundary, limit)
      decreases limit - nextBoundary
    {
      nextBoundary := nextBoundary + 1;
    }
  }

  /** The last index of `low..` at which the pattern is found. */
  function LastMatch(graphemes: seq<string>, matches: string -> bool, low: nat): (at: Option<nat>)
    ensures at.Some? ==> low <= at.value < |graphemes| && matches(graphemes[at.value])
    ensures forall i :: low <= i < |graphemes| && (at.Some? ==> at.value < i) ==> !matches(graphemes[i])
  {
    if |graphemes| <= low then None
    else if matches(graphemes[|graphemes| - 1]) then Some((|graphemes| - 1) as nat)
    else LastMatch(graphemes[..|graphemes| - 1], matches, low)
  }

  function MinPreferredIndex(limit: nat): nat {
    (limit as real * 0.45).Floor
  }

  function MinSoftIndex(limit: nat): nat {
    (limit as real * 0.68).Floor
  }

  /** After a late sentence end if there is one, else after a later soft break, else at the end; with the
      closing quotes and brackets that follow. */
  function BoundaryIn(graphemes: seq<string>, clipped: seq<string>, limit: nat, minPreferred: nat, minSoft: nat): nat {
    match LastMatch(clipped, HasSentenceEnd, minPreferred)
    case Some(i) => WithTrailingClosers(graphemes, i + 1, limit)
    case None =>
      match LastMatch(clipped, HasSoftBreak, minSoft)
      case Some(i) => WithTrailingClosers(graphemes, i + 1, limit)
      case None => |clipped|
  }

  function FirstOf(graphemes: seq<string>, limit: nat): seq<string> {
    if |graphemes| <= limit then graphemes else graphemes[..limit]
  }

  function SemanticBoundary(value: string, limit: nat): (boundary: nat)
    ensures boundary <= limit && boundary <= Count(value)
    ensures limit > 0 && value != "" ==> boundary > 0
  {
    var graphemes := Graphemes(value);
    if limit == 0 then 0
    else BoundaryIn(graphemes, FirstOf(graphemes, limit), limit, MinPreferredIndex(limit), MinSoftIndex(limit))
  }

  /** Behind a match at or after `low` that no other match follows, and behind the closers after it. */
  ghost predicate CutBehind(graphemes: seq<string>, clipped: seq<string>, matches: string -> bool, low: nat, limit: nat, boundary: nat) {
    exists k: nat ::
      && low < k <= |clipped| && matches(clipped[k - 1]) && NoneFrom(clipped, matches, k)
      && ClosersIncluded(graphemes, k, limit, boundary)
  }

  ghost predicate NoneFrom(clipped: seq<string>, matches: string -> bool, low: nat) {
    forall i :: low <= i < |clipped| ==> !matches(clipped[i])
  }

  lemma CutBehindLast(graphemes: seq<string>, clipped: seq<string>, matches: string -> bool, low: nat, limit: nat, i: nat)
    requires LastMatch(clipped, matches, low) == Some(i)
    ensures CutBehind(graphemes, clipped, matches, low, limit, WithTrailingClosers(graphemes, i + 1, limit))
  {
    var k := i + 1;
    assert clipped[k - 1] == clipped[i] && NoneFrom(clipped, matches, k);
    assert ClosersIncluded(graphemes, k, limit, WithTrailingClosers(graphemes, k, limit));
  }

  /** Where a text is cut: behind its last late sentence end, with the closers that follow; without one,
      behind its last later soft break, with the closers; without either, at the limit. */
  lemma BoundaryMeaning(g: seq<string>, clipped: seq<string>, limit: nat, minPreferred: nat, minSoft: nat)
    ensures var boundary := BoundaryIn(g, clipped, limit, minPreferred, minSoft);
            || CutBehind(g, clipped, HasSentenceEnd, minPreferred, limit, boundary)
            || (NoneFrom(clipped, HasSentenceEnd, minPreferred) && CutBehind(g, clipped, HasSoftBreak, minSoft, limit, boundary))
            || (NoneFrom(clipped, HasSentenceEnd, minPreferred) && NoneFrom(clipped, HasSoftBreak, minSoft)
                && boundary == |clipped|)
  {
    var sentence, soft := LastMatch(clipped, HasSentenceEnd, minPreferred), LastMatch(clipped, HasSoftBreak, minSoft);
    if sentence.Some? {
      CutBehindLast(g, clipped, HasSentenceEnd, minPreferred, limit, sentence.value);
    } else if soft.Some? {
      CutBehindLast(g, clipped, HasSoftBreak, minSoft, limit, soft.value);
    }
  }

  /** One of the two backward searches of `findSemanticBoundary`. */
  method SearchBackwards(clipped: seq<string>, matches: string -> bool, low: nat) returns (at: Option<nat>)
    ensures at == LastMatch(clipped, matches, low)
  {
    var index: int := |clipped| - 1;
    while index >= low
      invariant -1 <= index < |clipped|
      invariant LastMatch(clipped[..index + 1], matches, low) == LastMatch(clipped, matches, low)
    {
      assert clipped[..index + 1][..index] == clipped[..index];
      if matches(clipped[index]) {
        return Some(index);
      }
      index := index - 1;
    }
    at := None;
  }

  method FindSemanticBoundary(value: string, limit: nat) returns (boundary: nat)
    ensures boundary == SemanticBoundary(value, limit)
  {
    if limit <= 0 {
      return 0;
    }
    var graphemes := SplitGraphemesFallback(value);
    var clipped := FirstOf(graphemes, limit);
    var preferred := SearchBackwards(clipped, HasSentenceEnd, MinPreferredIndex(limit));
    if preferred.Some? {
      boundary := IncludeTrailingClosers(graphemes, preferred.value + 1, limit);
      return;
    }
    var soft := SearchBackwards(clipped, HasSoftBreak, MinSoftIndex(limit));
    if soft.Some? {
      boundary := IncludeTrailingClosers(graphemes, soft.value + 1, limit);
      return;
    }
    boundary := |clipped|;
  }

  // ---------------------------------------------------------------------------
  // Clipping
  // ---------------------------------------------------------------------------

  /** A JavaScript number. */
  datatype Number = NotFinite | Finite(value: real)

  const DEFAULT_MAX_GRAPHEMES: nat := 96

  function ToSafeInteger(value: Number, fallback: nat): nat {
    match value
    case NotFinite => fallback
    case Finite(v) => if v.Floor < 0 then 0 else v.Floor
  }

  /** `graphemes.slice(0, n).join('').trim()`. */
  function FirstGraphemes(text: string, n: nat): string {
    var g := Graphemes(text);
    Trim(Flatten(if n <= |g| then g[..n] else g))
  }

  function AppendEllipsisWithinBudget(value: string, limit: nat, ellipsis: string): string {
    var normalized := NormalizePreviewText(value);
    var ellipsisSize := Count(ellipsis);
    if normalized == "" || limit <= 0 then ""
    else if ellipsisSize <= 0 then FirstGraphemes(normalized, limit)
    else if limit <= ellipsisSize then FirstGraphemes(normalized, limit)
    else
      var content := FirstGraphemes(normalized, limit - ellipsisSize);
      if content != "" then content + ellipsis else ""
  }

  function ClipTextPreview(value: string, maxGraphemes: Number, ellipsis: string): string {
    var limit := ToSafeInteger(maxGraphemes, DEFAULT_MAX_GRAPHEMES);
    var normalized := NormalizePreviewText(value);
    if normalized == "" || limit <= 0 then ""
    else if Count(normalized) <= limit then normalized
    else ClipLong(normalized, limit, ellipsis)
  }

  function ClipLong(normalized: string, limit: nat, ellipsis: string): string {
    var ellipsisSize := Count(ellipsis);
    if ellipsisSize <= 0 then FirstGraphemes(normalized, limit)
    else if limit <= ellipsisSize then FirstGraphemes(normalized, limit)
    else AppendEllipsisWithinBudget(ClippedContent(normalized, limit - ellipsisSize), limit, ellipsis)
  }

  function ClippedContent(normalized: string, contentLimit: nat): string {
    var clipped := FirstGraphemes(normalized, SemanticBoundary(normalized, contentLimit));
    if clipped != "" then clipped else FirstGraphemes(normalized, contentLimit)
  }

  lemma FirstGraphemesCount(text: string, n: nat)
    ensures Count(FirstGraphemes(text, n)) <= n
  {
    var g := Graphemes(text);
    var k := if n <= |g| then n else |g|;
    assert g[..k] == if n <= |g| then g[..n] else g;
    GraphemesOfPrefix(text, k);
    CountTrim(Flatten(g[..k]));
  }

  lemma AppendEllipsisCount(value: string, limit: nat, ellipsis: string)
    ensures Count(AppendEllipsisWithinBudget(value, limit, ellipsis)) <= limit
  {
    var normalized := NormalizePreviewText(value);
    FirstGraphemesCount(normalized, limit);
    if Count(ellipsis) < limit {
      FirstGraphemesCount(normalized, limit - Count(ellipsis));
      CountSubadditive(FirstGraphemes(normalized, limit - Count(ellipsis)), ellipsis);
    }
  }

  lemma ClipLongCount(normalized: string, limit: nat, ellipsis: string)
    ensures Count(ClipLong(normalized, limit, ellipsis)) <= limit
  {
    FirstGraphemesCount(normalized, limit);
    if Count(ellipsis) < limit {
      AppendEllipsisCount(ClippedContent(normalized, limit - Count(ellipsis)), limit, ellipsis);
    }
  }

  /** The hard bound. */
  lemma ClipNeverExceedsLimit(value: string, maxGraphemes: Number, ellipsis: string)
    ensures Count(ClipTextPreview(value, maxGraphemes, ellipsis)) <= ToSafeInteger(maxGraphemes, DEFAULT_MAX_GRAPHEMES)
  {
    ClipLongCount(NormalizePreviewText(value), ToSafeInteger(maxGraphemes, DEFAULT_MAX_GRAPHEMES), ellipsis);
  }

  lemma {:induction false} FlattenPrefix(g: seq<string>, k: nat)
    requires k <= |g|
    ensures Flatten(g[..k]) <= Flatten(g)
    ensures k > 0 && g[0] != "" ==> Flatten(g[..k]) != ""
  {
    assert g == g[..k] + g[k..];
    FlattenAppend(g[..k], g[k..]);
  }

  lemma FirstGraphemesPrefix(text: string, n: nat)
    requires IsNormalized(text)
    ensures FirstGraphemes(text, n) <= text && IsNormalized(FirstGraphemes(text, n))
    ensures n > 0 && text != "" ==> FirstGraphemes(text, n) != ""
  {
    var g := Graphemes(text);
    var k := if n <= |g| then n else |g|;
    assert g[..k] == if n <= |g| then g[..n] else g;
    GraphemesLossless(text);
    FlattenPrefix(g, k);
    if text != "" {
      FirstGraphemeNonEmpty(text);
    }
    var cut := Flatten(g[..k]);
    assert cut == text[..|cut|];
    TrimmedPrefix(text, |cut|);
  }

  lemma AppendEllipsisShows(content: string, normalized: string, limit: nat, ellipsis: string) returns (shown: string)
    requires IsNormalized(content) && content != "" && content <= normalized && 0 < Count(ellipsis) < limit
    ensures AppendEllipsisWithinBudget(content, limit, ellipsis) == shown + ellipsis
    ensures shown != "" && shown <= normalized
  {
    NormalizedIsFixed(content);
    FirstGraphemesPrefix(content, limit - Count(ellipsis));
    shown := FirstGraphemes(content, limit - Count(ellipsis));
  }

  lemma ClippedContentPrefix(normalized: string, contentLimit: nat)
    requires IsNormalized(normalized) && normalized != "" && 0 < contentLimit
    ensures var c := ClippedContent(normalized, contentLimit);
            IsNormalized(c) && c != "" && c <= normalized
  {
    FirstGraphemesPrefix(normalized, SemanticBoundary(normalized, contentLimit));
  }

  /** A non-empty beginning of the text, and then the tail. */
  ghost predicate Shows(preview: string, normalized: string, tail: string) {
    exists shown :: preview == shown + tail && shown != "" && shown <= normalized
  }

  lemma LongTextWithEllipsis(normalized: string, limit: nat, ellipsis: string)
    requires IsNormalized(normalized) && normalized != "" && 0 < Count(ellipsis) < limit
    ensures Shows(AppendEllipsisWithinBudget(ClippedContent(normalized, limit - Count(ellipsis)), limit, ellipsis),
                  normalized, ellipsis)
  {
    ClippedContentPrefix(normalized, limit - Count(ellipsis));
    var content := ClippedContent(normalized, limit - Count(ellipsis));
    var shown := AppendEllipsisShows(content, normalized, limit, ellipsis);
  }

  lemma LongTextAlone(normalized: string, limit: nat)
    requires IsNormalized(normalized) && normalized != "" && limit > 0
    ensures Shows(FirstGraphemes(normalized, limit), normalized, "")
  {
    FirstGraphemesPrefix(normalized, limit);
    var shown := FirstGraphemes(normalized, limit);
    assert shown + "" == shown;
  }

  lemma LongTextShows(normalized: string, limit: nat, ellipsis: string)
    requires IsNormalized(normalized) && normalized != "" && limit > 0
    ensures Shows(ClipLong(normalized, limit, ellipsis), normalized, if Count(ellipsis) < limit then ellipsis else "")
  {
    if 0 < Count(ellipsis) < limit {
      LongTextWithEllipsis(normalized, limit, ellipsis);
    } else {
      LongTextAlone(normalized, limit);
    }
  }

  /** What a preview shows: the normalised text if it fits; otherwise a non-empty beginning of it,
      followed by the ellipsis if that leaves room for any text. */
  lemma ClipShowsPrefix(value: string, maxGraphemes: Number, ellipsis: string)
    requires ToSafeInteger(maxGraphemes, DEFAULT_MAX_GRAPHEMES) > 0 && NormalizePreviewText(value) != ""
    ensures var limit := ToSafeInteger(maxGraphemes, DEFAULT_MAX_GRAPHEMES);
            var normalized := NormalizePreviewText(value);
            var preview := ClipTextPreview(value, maxGraphemes, ellipsis);
            if Count(normalized) <= limit then preview == normalized
            else Shows(preview, normalized, if Count(ellipsis) < limit then ellipsis else "")
  {
    var limit := ToSafeInteger(maxGraphemes, DEFAULT_MAX_GRAPHEMES);
    var normalized := NormalizePreviewText(value);
    NormalizePreviewTextIsNormalized(value);
    LongTextShows(normalized, limit, ellipsis);
  }
}
