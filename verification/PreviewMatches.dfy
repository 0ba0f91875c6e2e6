/**
 Finding a text in a file preview (src/utils/ssh-file-preview.ts, 98-99 and 149-253).

 A query matches a line where its graphemes, one by one and ignoring case, are those of the line. A hit
 gives the place in graphemes, in UTF-16 code units of the line, and in code units of the whole document
 with unified line endings. The promise is that hits are exactly the matches, in order, and that their
 code units cut the matched graphemes out of the document. Case folding is a parameter.
 */
module PreviewMatches {
  import opened Prelude
  import opened TextPreview

  datatype MatchRange = MatchRange(start: nat, end: nat)

  datatype MatchHit = MatchHit(
    lineIndex: nat,
    start: nat,
    end: nat,
    lineCodeUnitStart: nat,
    lineCodeUnitEnd: nat,
    globalStart: nat,
    globalEnd: nat)

  type Fold = string -> string

  /** The query's graphemes are found at `start`. */
  predicate MatchesAt(g: seq<string>, q: seq<string>, fold: Fold, start: nat) {
    start + |q| <= |g| && forall k :: 0 <= k < |q| ==> fold(g[start + k]) == fold(q[k])
  }

  /** All matches before `n`, in order. */
  function RangesBefore(g: seq<string>, q: seq<string>, fold: Fold, n: nat): seq<MatchRange> {
    if n == 0 then []
    else RangesBefore(g, q, fold, n - 1) + if MatchesAt(g, q, fold, n - 1) then [MatchRange(n - 1, n - 1 + |q|)] else []
  }

  function MatchRanges(line: string, query: string, fold: Fold): seq<MatchRange> {
    if Trim(query) == "" then [] else RangesBefore(Graphemes(line), Graphemes(Trim(query)), fold, Count(line))
  }

  /** A range is listed exactly if it is a match. */
  lemma {:induction false} RangesAreMatches(g: seq<string>, q: seq<string>, fold: Fold, n: nat, r: MatchRange)
    ensures r in RangesBefore(g, q, fold, n) <==> r.start < n && r.end == r.start + |q| && MatchesAt(g, q, fold, r.start)
  {
    if n > 0 {
      RangesAreMatches(g, q, fold, n - 1, r);
    }
  }

  ghost predicate AscendingRanges(ranges: seq<MatchRange>, n: nat) {
    && (forall i :: 0 <= i < |ranges| ==> ranges[i].start < n)
    && forall i, j :: 0 <= i < j < |ranges| ==> ranges[i].start < ranges[j].start
  }

  lemma AscendingRangesSnoc(ranges: seq<MatchRange>, n: nat, last: MatchRange)
    requires AscendingRanges(ranges, n) && last.start == n
    ensures AscendingRanges(ranges + [last], n + 1)
  {
    var longer := ranges + [last];
    forall i | 0 <= i < |longer| ensures longer[i].start < n + 1 {
      assert longer[i] == if i < |ranges| then ranges[i] else last;
    }
    forall i, j | 0 <= i < j < |longer| ensures longer[i].start < longer[j].start {
      assert longer[i] == ranges[i] && longer[j] == if j < |ranges| then ranges[j] else last;
    }
  }

  lemma {:induction false} RangesAscend(g: seq<string>, q: seq<string>, fold: Fold, n: nat)
    ensures AscendingRanges(RangesBefore(g, q, fold, n), n)
  {
    if n > 0 {
      var before := RangesBefore(g, q, fold, n - 1);
      RangesAscend(g, q, fold, n - 1);
      AscendingRangesSnoc(before, n - 1, MatchRange(n - 1, n - 1 + |q|));
      assert before + [] == before;
    }
  }

  /** Places too close to the end cannot match. */
  lemma {:induction false} NoLateMatches(g: seq<string>, q: seq<string>, fold: Fold, low: nat, high: nat)
    requires low <= high && low + |q| > |g|
    ensures RangesBefore(g, q, fold, low) == RangesBefore(g, q, fold, high)
    decreases high
  {
    if low < high {
      NoLateMatches(g, q, fold, low, high - 1);
    }
  }

  /** The inner loop: compares the query with one place of the line. */
  method Matched(g: seq<string>, q: seq<string>, fold: Fold, start: nat) returns (matched: bool)
    requires start + |q| <= |g|
    ensures matched == MatchesAt(g, q, fold, start)
  {
    matched := true;
    for offset := 0 to |q|
      invariant matched ==> forall k :: 0 <= k < offset ==> fold(g[start + k]) == fold(q[k])
      invariant !matched ==> !MatchesAt(g, q, fold, start)
    {
      if fold(g[start + offset]) != fold(q[offset]) {
        matched := false;
        break;
      }
    }
  }

  method BuildSshPreviewMatchRanges(line: string, query: string, fold: Fold) returns (matches: seq<MatchRange>)
    ensures matches == MatchRanges(line, query, fold)
  {
    var normalizedQuery := Trim(query);
    if normalizedQuery == "" {
      return [];
    }
    var g := SplitGraphemesFallback(line);
    var q := SplitGraphemesFallback(normalizedQuery);
    if |q| == 0 || |q| > |g| {
      NoLateMatches(g, q, fold, 0, |g|);
      return [];
    }
    matches := MatchesIn(g, q, fold);
  }

  lemma NextRange(g: seq<string>, q: seq<string>, fold: Fold, n: nat)
    ensures RangesBefore(g, q, fold, n + 1)
         == RangesBefore(g, q, fold, n) + if MatchesAt(g, q, fold, n) then [MatchRange(n, n + |q|)] else []
  {}

  /** The outer loop: tries every place the query fits in. */
  method MatchesIn(g: seq<string>, q: seq<string>, fold: Fold) returns (matches: seq<MatchRange>)
    requires 0 < |q| <= |g|
    ensures matches == RangesBefore(g, q, fold, |g|)
  {
    matches := [];
    var start: nat := 0;
    while start <= |g| - |q|
      invariant start <= |g| - |q| + 1
      invariant matches == RangesBefore(g, q, fold, start)
    {
      var matched := Matched(g, q, fold, start);
      NextRange(g, q, fold, start);
      if matched {
        matches := matches + [MatchRange(start, start + |q|)];
      } else {
        assert matches + [] == matches;
      }
      start := start + 1;
    }
    NoLateMatches(g, q, fold, start, |g|);
  }

  // ---------------------------------------------------------------------------
  // Offsets
  // ---------------------------------------------------------------------------

  /** The code units before the k-th grapheme of a line. */
  function Offset(g: seq<string>, k: nat): nat
    requires k <= |g|
  {
    |Encode(Flatten(g[..k]))|
  }

  lemma OffsetSnoc(g: seq<string>, k: nat)
    requires k < |g|
    ensures Offset(g, k + 1) == Offset(g, k) + |Encode(g[k])|
  {
    assert g[..k + 1] == g[..k] + [g[k]];
    FlattenOne(g[..k], g[k]);
    EncodeConcat(Flatten(g[..k]), g[k]);
  }

  method BuildGraphemeCodeUnitOffsets(value: string) returns (offsets: seq<nat>)
    ensures |offsets| == Count(value) + 1
    ensures forall k :: 0 <= k <= Count(value) ==> offsets[k] == Offset(Graphemes(value), k)
  {
    var graphemes := SplitGraphemesFallback(value);
    offsets := [0];
    var currentOffset := 0;
    for i := 0 to |graphemes|
      invariant |offsets| == i + 1 && currentOffset == Offset(graphemes, i)
      invariant forall k :: 0 <= k <= i ==> offsets[k] == Offset(graphemes, k)
    {
      OffsetSnoc(graphemes, i);
      currentOffset := currentOffset + |Encode(graphemes[i])|;
      offsets := offsets + [currentOffset];
    }
  }

  /** Later graphemes have later offsets. */
  lemma {:induction false} OffsetsAscend(text: string, j: nat, k: nat)
    requires j < k <= Count(text)
    ensures Offset(Graphemes(text), j) < Offset(Graphemes(text), k) <= |Encode(text)|
    decreases k - j
  {
    var g := Graphemes(text);
    OffsetSnoc(g, j);
    NoEmptyGrapheme(text, j);
    if j + 1 < k {
      OffsetsAscend(text, j + 1, k);
    } else {
      OffsetWithin(text, k);
    }
  }

  lemma OffsetWithin(text: string, k: nat)
    requires k <= Count(text)
    ensures Offset(Graphemes(text), k) <= |Encode(text)|
  {
    var g := Graphemes(text);
    assert g == g[..k] + g[k..];
    FlattenAppend(g[..k], g[k..]);
    GraphemesLossless(text);
    EncodeConcat(Flatten(g[..k]), Flatten(g[k..]));
  }

  lemma {:induction false} NoEmptyGrapheme(text: string, k: nat)
    requires k < Count(text)
    ensures Graphemes(text)[k] != ""
  {
    if |text| > 1 && k < Count(text[..|text| - 1]) {
      NoEmptyGrapheme(text[..|text| - 1], k);
    }
  }

  // ---------------------------------------------------------------------------
  // Hits
  // ---------------------------------------------------------------------------

  function Lines(content: string): (lines: seq<string>)
    ensures lines != []
  {
    Split(UnixLines(content), '\n')
  }

  /** The code units before line i of the document: the lines before it, each with its line feed. */
  function LineOffset(lines: seq<string>, i: nat): nat
    requires i <= |lines|
  {
    if i == 0 then 0 else LineOffset(lines, i - 1) + |Encode(lines[i - 1])| + 1
  }

  function HitOf(lines: seq<string>, i: nat, r: MatchRange): MatchHit
    requires i < |lines| && r.start <= r.end <= Count(lines[i])
  {
    var low, high := Offset(Graphemes(lines[i]), r.start), Offset(Graphemes(lines[i]), r.end);
    MatchHit(i, r.start, r.end, low, high, LineOffset(lines, i) + low, LineOffset(lines, i) + high)
  }

  ghost predicate RangesFit(line: string, ranges: seq<MatchRange>) {
    forall k :: 0 <= k < |ranges| ==> ranges[k].start <= ranges[k].end <= Count(line)
  }

  lemma RangesFitLine(line: string, query: string, fold: Fold)
    ensures RangesFit(line, MatchRanges(line, query, fold))
  {
    var ranges := MatchRanges(line, query, fold);
    forall k | 0 <= k < |ranges| ensures ranges[k].start <= ranges[k].end <= Count(line) {
      RangesAreMatches(Graphemes(line), Graphemes(Trim(query)), fold, Count(line), ranges[k]);
    }
  }

  function HitsOfLine(lines: seq<string>, i: nat, query: string, fold: Fold): (hits: seq<MatchHit>)
    requires i < |lines|
    ensures |hits| == |MatchRanges(lines[i], query, fold)|
  {
    var ranges := MatchRanges(lines[i], query, fold);
    RangesFitLine(lines[i], query, fold);
    seq(|ranges|, k requires 0 <= k < |ranges| && RangesFit(lines[i], ranges) => HitOf(lines, i, ranges[k]))
  }

  /** The hits, line by line. */
  function HitLists(lines: seq<string>, query: string, fold: Fold): (lists: seq<seq<MatchHit>>)
    ensures |lists| == |lines|
    ensures forall i :: 0 <= i < |lines| ==> lists[i] == HitsOfLine(lines, i, query, fold)
  {
    seq(|lines|, i requires 0 <= i < |lines| => HitsOfLine(lines, i, query, fold))
  }

  function Hits(content: string, query: string, fold: Fold): seq<MatchHit> {
    Flatten(HitLists(Lines(content), query, fold))
  }

  lemma {:induction false} FlattenNothing<T>(parts: seq<seq<T>>)
    requires forall i :: 0 <= i < |parts| ==> parts[i] == []
    ensures Flatten(parts) == []
  {
    if parts != [] {
      FlattenNothing(parts[1..]);
    }
  }

  lemma EmptyQueryHasNoHits(lines: seq<string>, query: string, fold: Fold)
    requires Trim(query) == ""
    ensures Flatten(HitLists(lines, query, fold)) == []
  {
    var lists := HitLists(lines, query, fold);
    forall i | 0 <= i < |lists| ensures lists[i] == [] {
      assert |HitsOfLine(lines, i, query, fold)| == 0;
    }
    FlattenNothing(lists);
  }

  /** The loop over the ranges of one line. */
  method HitsForLine(lines: seq<string>, lineIndex: nat, documentOffset: nat, query: string, fold: Fold)
    returns (hits: seq<MatchHit>)
    requires lineIndex < |lines| && documentOffset == LineOffset(lines, lineIndex)
    ensures hits == HitsOfLine(lines, lineIndex, query, fold)
  {
    var line := lines[lineIndex];
    var ranges := BuildSshPreviewMatchRanges(line, query, fold);
    var codeUnitOffsets := BuildGraphemeCodeUnitOffsets(line);
    RangesFitLine(line, query, fold);
    hits := [];
    ghost var expected := HitsOfLine(lines, lineIndex, query, fold);
    for k := 0 to |ranges|
      invariant hits == expected[..k]
    {
      var range := ranges[k];
      assert expected[k] == HitOf(lines, lineIndex, range);
      var lineCodeUnitStart, lineCodeUnitEnd := codeUnitOffsets[range.start], codeUnitOffsets[range.end];
      hits := hits + [MatchHit(lineIndex, range.start, range.end, lineCodeUnitStart, lineCodeUnitEnd,
                               documentOffset + lineCodeUnitStart, documentOffset + lineCodeUnitEnd)];
    }
  }

  /** The loop over the lines. */
  method HitsForLines(lines: seq<string>, query: string, fold: Fold) returns (hits: seq<MatchHit>)
    ensures hits == Flatten(HitLists(lines, query, fold))
  {
    hits := [];
    ghost var lists := HitLists(lines, query, fold);
    var documentOffset: nat := 0;
    for lineIndex := 0 to |lines|
      invariant hits == Flatten(lists[..lineIndex])
      invariant lineIndex < |lines| ==> documentOffset == LineOffset(lines, lineIndex)
    {
      var more := HitsForLine(lines, lineIndex, documentOffset, query, fold);
      hits := hits + more;
      FlattenOne(lists[..lineIndex], more);
      assert lists[..lineIndex + 1] == lists[..lineIndex] + [more];
      documentOffset := documentOffset + |Encode(lines[lineIndex])|;
      if lineIndex < |lines| - 1 {
        documentOffset := documentOffset + 1;
      }
    }
    assert lists[..|lines|] == lists;
  }

  method BuildSshPreviewMatchHits(content: string, query: string, fold: Fold) returns (hits: seq<MatchHit>)
    ensures hits == Hits(content, query, fold)
  {
    var lines := Lines(content);
    var normalizedQuery := Trim(query);
    if normalizedQuery == "" {
      EmptyQueryHasNoHits(lines, query, fold);
      return [];
    }
    hits := HitsForLines(lines, normalizedQuery, fold);
    TrimTwice(query);
    SameHits(lines, normalizedQuery, query, fold);
  }

  lemma SameHits(lines: seq<string>, a: string, b: string, fold: Fold)
    requires Trim(a) == Trim(b)
    ensures HitLists(lines, a, fold) == HitLists(lines, b, fold)
  {
    forall i | 0 <= i < |lines| ensures HitsOfLine(lines, i, a, fold) == HitsOfLine(lines, i, b, fold) {
      assert MatchRanges(lines[i], a, fold) == MatchRanges(lines[i], b, fold);
    }
  }

  // ---------------------------------------------------------------------------
  // What the hits mean
  // ---------------------------------------------------------------------------

  /** The hit of a match. */
  ghost predicate IsHit(lines: seq<string>, query: string, fold: Fold, hit: MatchHit) {
    && hit.lineIndex < |lines| && Trim(query) != ""
    && var g, q := Graphemes(lines[hit.lineIndex]), Graphemes(Trim(query));
       && MatchesAt(g, q, fold, hit.start) && hit.end == hit.start + |q|
       && hit == HitOf(lines, hit.lineIndex, MatchRange(hit.start, hit.end))
  }

  lemma MatchRangesAreMatches(line: string, query: string, fold: Fold, r: MatchRange)
    ensures r in MatchRanges(line, query, fold)
       <==> Trim(query) != "" && MatchesAt(Graphemes(line), Graphemes(Trim(query)), fold, r.start)
            && r.end == r.start + Count(Trim(query))
  {
    if Trim(query) != "" {
      RangesAreMatches(Graphemes(line), Graphemes(Trim(query)), fold, Count(line), r);
    }
  }

  lemma LineHits(lines: seq<string>, i: nat, query: string, fold: Fold, hit: MatchHit)
    requires i < |lines|
    ensures hit in HitsOfLine(lines, i, query, fold) <==> hit.lineIndex == i && IsHit(lines, query, fold, hit)
  {
    var ranges, hits := MatchRanges(lines[i], query, fold), HitsOfLine(lines, i, query, fold);
    RangesFitLine(lines[i], query, fold);
    var r := MatchRange(hit.start, hit.end);
    MatchRangesAreMatches(lines[i], query, fold, r);
    if hit in hits {
      var k :| 0 <= k < |hits| && hits[k] == hit;
      assert ranges[k] == r;
    }
    if hit.lineIndex == i && IsHit(lines, query, fold, hit) {
      var k :| 0 <= k < |ranges| && ranges[k] == r;
      assert hits[k] == hit;
    }
  }

  lemma {:induction false} InFlatten<T>(parts: seq<seq<T>>, x: T)
    ensures x in Flatten(parts) <==> exists i :: 0 <= i < |parts| && x in parts[i]
  {
    if parts != [] {
      InFlatten(parts[1..], x);
      if i :| 0 <= i < |parts[1..]| && x in parts[1..][i] {
        assert x in parts[i + 1];
      }
      if i :| 0 <= i < |parts| && x in parts[i] {
        assert i > 0 ==> parts[1..][i - 1] == parts[i];
      }
    }
  }

  lemma InSomeList(lists: seq<seq<MatchHit>>, hit: MatchHit, isHit: bool)
    requires forall i :: 0 <= i < |lists| ==> (hit in lists[i] <==> hit.lineIndex == i && isHit)
    requires isHit ==> hit.lineIndex < |lists|
    ensures hit in Flatten(lists) <==> isHit
  {
    InFlatten(lists, hit);
    if isHit {
      assert hit in lists[hit.lineIndex];
    }
  }

  /** Sound and complete: the hits are exactly the matches, on every line. */
  lemma HitsAreMatches(content: string, query: string, fold: Fold, hit: MatchHit)
    ensures hit in Hits(content, query, fold) <==> IsHit(Lines(content), query, fold, hit)
  {
    var lines := Lines(content);
    var lists, isHit := HitLists(lines, query, fold), IsHit(lines, query, fold, hit);
    forall i | 0 <= i < |lists| ensures hit in lists[i] <==> hit.lineIndex == i && isHit {
      LineHits(lines, i, query, fold, hit);
    }
    InSomeList(lists, hit, isHit);
  }

  /** In order of position, hence each match once. */
  ghost predicate Ascending(hits: seq<MatchHit>) {
    forall i, j :: 0 <= i < j < |hits| ==> hits[i].globalStart < hits[j].globalStart
  }

  lemma HitWithinLine(lines: seq<string>, query: string, fold: Fold, hit: MatchHit)
    requires IsHit(lines, query, fold, hit)
    ensures hit.lineCodeUnitStart < hit.lineCodeUnitEnd <= |Encode(lines[hit.lineIndex])|
    ensures LineOffset(lines, hit.lineIndex) <= hit.globalStart < hit.globalEnd < LineOffset(lines, hit.lineIndex + 1)
  {
    OffsetsAscend(lines[hit.lineIndex], hit.start, hit.end);
  }

  lemma LineHitsAscend(lines: seq<string>, i: nat, query: string, fold: Fold, low: nat, high: nat)
    requires i < |lines| && low == LineOffset(lines, i) && high == LineOffset(lines, i + 1)
    ensures Ascending(HitsOfLine(lines, i, query, fold))
    ensures StartWithin(HitsOfLine(lines, i, query, fold), low, high)
  {
    var ranges, hits := MatchRanges(lines[i], query, fold), HitsOfLine(lines, i, query, fold);
    RangesFitLine(lines[i], query, fold);
    RangesAscend(Graphemes(lines[i]), Graphemes(Trim(query)), fold, Count(lines[i]));
    assert AscendingRanges(ranges, Count(lines[i]));
    forall a, b | 0 <= a < b < |hits| ensures hits[a].globalStart < hits[b].globalStart {
      OffsetsAscend(lines[i], ranges[a].start, ranges[b].start);
    }
    forall k | 0 <= k < |hits| ensures low <= hits[k].globalStart < high {
      LineHits(lines, i, query, fold, hits[k]);
      HitWithinLine(lines, query, fold, hits[k]);
    }
  }

  ghost predicate StartWithin(hits: seq<MatchHit>, low: nat, high: nat) {
    forall k :: 0 <= k < |hits| ==> low <= hits[k].globalStart < high
  }

  lemma AscendingConcat(before: seq<MatchHit>, more: seq<MatchHit>, middle: nat, high: nat)
    requires Ascending(before) && Ascending(more) && middle <= high
    requires StartWithin(before, 0, middle) && StartWithin(more, middle, high)
    ensures Ascending(before + more) && StartWithin(before + more, 0, high)
  {
    var all := before + more;
    forall i, j | 0 <= i < j < |all| ensures all[i].globalStart < all[j].globalStart {
      assert all[i] == if i < |before| then before[i] else more[i - |before|];
      assert all[j] == if j < |before| then before[j] else more[j - |before|];
    }
  }

  /** Every list ascends within its own bounds, and the bounds rise. */
  ghost predicate WithinBounds(parts: seq<seq<MatchHit>>, bounds: seq<nat>) {
    && |bounds| == |parts| + 1
    && forall i :: 0 <= i < |parts| ==> Ascending(parts[i]) && AreBounds(parts[i], bounds[i], bounds[i + 1])
  }

  ghost predicate AreBounds(hits: seq<MatchHit>, low: nat, high: nat) {
    low <= high && StartWithin(hits, low, high)
  }

  lemma {:induction false} FlattenAscends(parts: seq<seq<MatchHit>>, bounds: seq<nat>)
    requires WithinBounds(parts, bounds)
    ensures Ascending(Flatten(parts)) && StartWithin(Flatten(parts), 0, bounds[|parts|])
  {
    if parts != [] {
      var n := |parts| - 1;
      FlattenAscends(parts[..n], bounds[..n + 1]);
      assert parts == parts[..n] + [parts[n]];
      FlattenOne(parts[..n], parts[n]);
      assert AreBounds(parts[n], bounds[n], bounds[n + 1]);
      AscendingConcat(Flatten(parts[..n]), parts[n], bounds[n], bounds[n + 1]);
    }
  }

  function LineOffsets(lines: seq<string>): (offsets: seq<nat>)
    ensures |offsets| == |lines| + 1 && forall i :: 0 <= i <= |lines| ==> offsets[i] == LineOffset(lines, i)
  {
    seq(|lines| + 1, i requires 0 <= i <= |lines| => LineOffset(lines, i))
  }

  lemma LinesBoundHits(lines: seq<string>, query: string, fold: Fold)
    ensures WithinBounds(HitLists(lines, query, fold), LineOffsets(lines))
  {
    var lists, bounds := HitLists(lines, query, fold), LineOffsets(lines);
    forall i | 0 <= i < |lists| ensures Ascending(lists[i]) && AreBounds(lists[i], bounds[i], bounds[i + 1]) {
      LineHitsAscend(lines, i, query, fold, bounds[i], bounds[i + 1]);
    }
  }

  /** In order of position, so each match is listed once. */
  lemma HitsAscend(content: string, query: string, fold: Fold)
    ensures Ascending(Hits(content, query, fold))
  {
    LinesBoundHits(Lines(content), query, fold);
    FlattenAscends(HitLists(Lines(content), query, fold), LineOffsets(Lines(content)));
  }

  /** There is a hit on a line at a place exactly if the query, without the white space around it, has graphemes and agrees
      there with the line, grapheme by grapheme. */
  lemma HitThereExactly(content: string, query: string, fold: Fold, i: nat, start: nat)
    ensures (exists hit :: hit in Hits(content, query, fold) && hit.lineIndex == i && hit.start == start)
       <==> && i < |Lines(content)| && Trim(query) != ""
            && var g, q := Graphemes(Lines(content)[i]), Graphemes(Trim(query));
               start + |q| <= |g| && forall k :: 0 <= k < |q| ==> fold(g[start + k]) == fold(q[k])
  {
    forall hit: MatchHit ensures hit in Hits(content, query, fold) <==> IsHit(Lines(content), query, fold, hit) {
      HitsAreMatches(content, query, fold, hit);
    }
    if i < |Lines(content)| && Trim(query) != "" && MatchesAt(Graphemes(Lines(content)[i]), Graphemes(Trim(query)), fold, start) {
      var hit := HitOf(Lines(content), i, MatchRange(start, start + Count(Trim(query))));
      assert IsHit(Lines(content), query, fold, hit);
    }
  }

  // --- Cutting out -----------------------------------------------------------

  /** A piece of a sequence of code units. */
  ghost predicate CutsOut(units: seq<CodeUnit>, low: nat, piece: seq<CodeUnit>) {
    low + |piece| <= |units| && units[low..low + |piece|] == piece
  }

  lemma CutsOutAfter(before: seq<CodeUnit>, units: seq<CodeUnit>, low: nat, piece: seq<CodeUnit>)
    requires CutsOut(units, low, piece)
    ensures CutsOut(before + units, |before| + low, piece)
  {
    SliceShift(before, units, low, low + |piece|);
  }

  lemma EncodeJoin(first: string, rest: seq<string>)
    requires rest != []
    ensures Encode(Join([first] + rest, '\n')) == (Encode(first) + [0x0a]) + Encode(Join(rest, '\n'))
  {
    var tail := Join(rest, '\n');
    assert ([first] + rest)[1..] == rest;
    EncodeConcat(first + ['\n'], tail);
    EncodeConcat(first, ['\n']);
    EncodeLineFeed();
    assert ['\n'] == "\n";
  }

  lemma CutsOutFirst(piece: seq<CodeUnit>, rest: seq<CodeUnit>)
    ensures CutsOut(piece + rest, 0, piece)
  {
  }

  /** Every line is in the document, at its offset. */
  lemma {:induction false} LineInDocument(lines: seq<string>, i: nat)
    requires i < |lines|
    ensures CutsOut(Encode(Join(lines, '\n')), LineOffset(lines, i), Encode(lines[i]))
  {
    var first, rest := lines[0], lines[1..];
    assert lines == [first] + rest;
    if rest == [] {
      assert Encode(first) + [] == Encode(first);
      CutsOutFirst(Encode(first), []);
    } else if i == 0 {
      EncodeJoin(first, rest);
      var tail := Encode(Join(rest, '\n'));
      ConcatAssociates(Encode(first), [0x0a], tail);
      CutsOutFirst(Encode(first), [0x0a] + tail);
    } else {
      LineInDocument(rest, i - 1);
      LaterLine(first, rest, i - 1);
    }
  }

  lemma LaterLine(first: string, rest: seq<string>, i: nat)
    requires i < |rest| && CutsOut(Encode(Join(rest, '\n')), LineOffset(rest, i), Encode(rest[i]))
    ensures CutsOut(Encode(Join([first] + rest, '\n')), LineOffset([first] + rest, i + 1), Encode(rest[i]))
  {
    var before, units, piece := Encode(first) + [0x0a], Encode(Join(rest, '\n')), Encode(rest[i]);
    var whole, at := Encode(Join([first] + rest, '\n')), LineOffset([first] + rest, i + 1);
    assert whole == before + units by {
      EncodeJoin(first, rest);
    }
    assert at == |before| + LineOffset(rest, i) by {
      LineOffsetShift(first, rest, i);
    }
    CutsOutAfter(before, units, LineOffset(rest, i), piece);
  }

  lemma EncodeLineFeed()
    ensures Encode("\n") == [0x0a]
  {
    assert "\n"[1..] == "";
  }

  lemma SliceShift(a: seq<CodeUnit>, b: seq<CodeUnit>, low: nat, high: nat)
    requires low <= high <= |b|
    ensures (a + b)[|a| + low..|a| + high] == b[low..high]
  {
  }

  lemma {:induction false} LineOffsetShift(first: string, rest: seq<string>, i: nat)
    requires i <= |rest|
    ensures LineOffset([first] + rest, i + 1) == |Encode(first) + [0x0a]| + LineOffset(rest, i)
  {
    if i > 0 {
      LineOffsetShift(first, rest, i - 1);
      assert ([first] + rest)[i] == rest[i - 1];
    } else {
      assert ([first] + rest)[0] == first;
    }
  }

  lemma LineInContent(content: string, i: nat)
    requires i < |Lines(content)|
    ensures CutsOut(Encode(UnixLines(content)), LineOffset(Lines(content), i), Encode(Lines(content)[i]))
  {
    JoinSplit(UnixLines(content), '\n');
    LineInDocument(Lines(content), i);
  }

  lemma CutMiddle(a: string, b: string, c: string)
    ensures CutsOut(Encode(a + b + c), |Encode(a)|, Encode(b))
  {
    EncodeConcat(a + b, c);
    EncodeConcat(a, b);
    CutConcat(Encode(a), Encode(b), Encode(c));
  }

  lemma CutConcat(x: seq<CodeUnit>, y: seq<CodeUnit>, z: seq<CodeUnit>)
    ensures CutsOut((x + y) + z, |x|, y)
  {
  }

  lemma FlattenSplit(g: seq<string>, k: nat)
    requires k <= |g|
    ensures Flatten(g) == Flatten(g[..k]) + Flatten(g[k..])
  {
    FlattenAppend(g[..k], g[k..]);
    assert g == g[..k] + g[k..];
  }

  lemma SplitThree(g: seq<string>, j: nat, k: nat)
    requires j <= k <= |g|
    ensures Flatten(g) == Flatten(g[..j]) + Flatten(g[j..k]) + Flatten(g[k..])
    ensures Flatten(g[..k]) == Flatten(g[..j]) + Flatten(g[j..k])
  {
    FlattenSplit(g, k);
    FlattenSplit(g[..k], j);
    assert g[..k][..j] == g[..j] && g[..k][j..] == g[j..k];
  }

  /** The code units between two graphemes are the graphemes between them. */
  lemma CutGraphemes(text: string, j: nat, k: nat)
    requires j <= k <= Count(text)
    ensures var g := Graphemes(text);
            && CutsOut(Encode(text), Offset(g, j), Encode(Flatten(g[j..k])))
            && Offset(g, k) == Offset(g, j) + |Encode(Flatten(g[j..k]))|
  {
    var g := Graphemes(text);
    SplitThree(g, j, k);
    GraphemesLossless(text);
    CutMiddle(Flatten(g[..j]), Flatten(g[j..k]), Flatten(g[k..]));
    EncodeConcat(Flatten(g[..j]), Flatten(g[j..k]));
  }

  lemma CutOfCut(units: seq<CodeUnit>, base: nat, line: seq<CodeUnit>, low: nat, piece: seq<CodeUnit>)
    requires CutsOut(units, base, line) && CutsOut(line, low, piece)
    ensures CutsOut(units, base + low, piece)
  {
    forall k | 0 <= k < |piece| ensures units[base + low + k] == piece[k] {
      assert line[low..low + |piece|][k] == line[low + k];
      assert units[base..base + |line|][low + k] == units[base + (low + k)];
    }
  }

  /** A hit's range in its line, and so in the document, cuts the matched graphemes out. */
  lemma IsHitCuts(lines: seq<string>, query: string, fold: Fold, hit: MatchHit)
    requires IsHit(lines, query, fold, hit)
    ensures var matched := Encode(Flatten(Graphemes(lines[hit.lineIndex])[hit.start..hit.end]));
            && CutsOut(Encode(lines[hit.lineIndex]), hit.lineCodeUnitStart, matched)
            && hit.globalStart == LineOffset(lines, hit.lineIndex) + hit.lineCodeUnitStart
            && hit.globalEnd == hit.globalStart + |matched|
  {
    CutGraphemes(lines[hit.lineIndex], hit.start, hit.end);
  }

  /** The code units at the hit's global range are the matched graphemes. */
  ghost predicate CutsMatch(content: string, hit: MatchHit) {
    var lines := Lines(content);
    && hit.lineIndex < |lines| && hit.start <= hit.end <= Count(lines[hit.lineIndex])
    && var matched := Encode(Flatten(Graphemes(lines[hit.lineIndex])[hit.start..hit.end]));
       CutsOut(Encode(UnixLines(content)), hit.globalStart, matched) && hit.globalEnd == hit.globalStart + |matched|
  }

  lemma IsHitCutsMatch(content: string, query: string, fold: Fold, hit: MatchHit)
    requires IsHit(Lines(content), query, fold, hit)
    ensures CutsMatch(content, hit)
  {
    var lines := Lines(content);
    var line := lines[hit.lineIndex];
    var matched := Encode(Flatten(Graphemes(line)[hit.start..hit.end]));
    IsHitCuts(lines, query, fold, hit);
    LineInContent(content, hit.lineIndex);
    CutOfCut(Encode(UnixLines(content)), LineOffset(lines, hit.lineIndex), Encode(line), hit.lineCodeUnitStart, matched);
  }

  /** The global range of a hit cuts the matched graphemes out of the document. */
  lemma HitCutsMatch(content: string, query: string, fold: Fold, hit: MatchHit)
    requires hit in Hits(content, query, fold)
    ensures CutsMatch(content, hit)
  {
    HitsAreMatches(content, query, fold, hit);
    IsHitCutsMatch(content, query, fold, hit);
  }
}
