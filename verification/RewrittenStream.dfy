/**
 The rewriting of a stream of values (src/terminal/session.ts, 1290-1310): every value queued for the
 terminal is rewritten on its own, so a sequence that begins in one value and ends in a later one passes
 through as it is. When that makes no difference, exactly.
 */
module RewrittenStream {
  import opened Prelude
  import opened TerminalTheme

  function Flat(values: seq<string>): string {
    if values == [] then "" else values[0] + Flat(values[1..])
  }

  function Rewritten(values: seq<string>): string {
    if values == [] then "" else NormalizeAnsi(values[0]) + Rewritten(values[1..])
  }

  /** The parameters of the sequence that begins in `a` and ends in what follows. */
  function Straddling(a: string, following: string): Option<string>
    decreases |a|
  {
    if a == "" then None
    else match SgrAt(a)
      case Some(n) => Straddling(a[n + 3..], following)
      case None =>
        match SgrAt(a + following)
        case Some(n) => Some((a + following)[2..2 + n])
        case None => Straddling(a[1..], following)
  }

  /** No sequence straddles the seam, or one that would not be rewritten anyway. */
  predicate Harmless(a: string, following: string) {
    match Straddling(a, following)
    case None => true
    case Some(params) => LightParams(params) == params
  }

  predicate AllHarmless(values: seq<string>) {
    values == [] || (Harmless(values[0], Flat(values[1..])) && AllHarmless(values[1..]))
  }

  /** What is before the first escape character stays as it is. */
  ghost predicate SameStart(b: string, x: string) {
    forall n: nat :: n <= |b| && ESC !in b[..n] ==> b[..n] <= x
  }

  lemma {:induction false} NormalizeKeepsStart(b: string)
    ensures SameStart(b, NormalizeAnsi(b))
  {
    if b != "" && b[0] != ESC {
      var ch, rest := b[0], b[1..];
      assert b == [ch] + rest;
      NormalizeKeepsStart(rest);
      NormalizeAnsiCons(ch, rest);
      forall n: nat | 0 < n <= |b| && ESC !in b[..n] ensures b[..n] <= NormalizeAnsi(b) {
        assert b[..n] == [ch] + rest[..n - 1];
      }
    }
    assert forall n: nat :: 0 < n <= |b| && b[0] == ESC ==> b[..n][0] == ESC;
  }

  lemma SameStartConcat(v: string, x: string, b: string, y: string)
    requires SameStart(v, x) && SameStart(b, y) && (ESC !in v ==> x == v)
    ensures SameStart(v + b, x + y)
  {
    forall n: nat | n <= |v + b| && ESC !in (v + b)[..n] ensures (v + b)[..n] <= x + y {
      if n <= |v| {
        assert (v + b)[..n] == v[..n];
        assert v[..n] <= x + y;
      } else {
        assert (v + b)[..n] == v + b[..n - |v|];
      }
    }
  }

  lemma {:induction false} NoEscapeNoChange(v: string)
    requires ESC !in v
    ensures NormalizeAnsi(v) == v
  {
    if v != "" {
      NoEscapeNoChange(v[1..]);
      assert v == [v[0]] + v[1..];
    }
  }

  lemma {:induction false} RewrittenKeepsStart(values: seq<string>)
    ensures SameStart(Flat(values), Rewritten(values))
  {
    if values != [] {
      RewrittenKeepsStart(values[1..]);
      NormalizeKeepsStart(values[0]);
      if ESC !in values[0] {
        NoEscapeNoChange(values[0]);
      }
      SameStartConcat(values[0], NormalizeAnsi(values[0]), Flat(values[1..]), Rewritten(values[1..]));
    }
  }

  // ---------------------------------------------------------------------------
  // One seam
  // ---------------------------------------------------------------------------

  lemma PrefixCancels(p: string, a: string, b: string)
    requires p + a == p + b
    ensures a == b
  {
    assert a == (p + a)[|p|..] == (p + b)[|p|..] == b;
  }

  lemma SequenceStays(params: string, rest: string, b: string)
    requires AllParamChars(params)
    ensures SgrAt(SgrSequence(params) + rest) == Some(|params|)
    ensures Straddling(SgrSequence(params) + rest, b) == Straddling(rest, b)
    ensures NormalizeAnsi(SgrSequence(params) + rest) == SgrSequence(LightParams(params)) + NormalizeAnsi(rest)
    ensures NormalizeAnsi(SgrSequence(params) + rest + b) == SgrSequence(LightParams(params)) + NormalizeAnsi(rest + b)
  {
    SgrAtSequence(params, rest);
    NormalizeSequence(params, rest);
    NormalizeSequence(params, rest + b);
    ConcatAssociates(SgrSequence(params), rest, b);
  }

  lemma CharacterStays(ch: char, rest: string, b: string)
    requires SgrAt([ch] + rest).None? && SgrAt([ch] + rest + b).None?
    ensures Straddling([ch] + rest, b) == Straddling(rest, b)
    ensures NormalizeAnsi([ch] + rest) == [ch] + NormalizeAnsi(rest)
    ensures NormalizeAnsi([ch] + rest + b) == [ch] + NormalizeAnsi(rest + b)
  {
    ConcatAssociates([ch], rest, b);
    NormalizeAnsiCons(ch, rest);
    NormalizeAnsiCons(ch, rest + b);
    assert ([ch] + rest)[1..] == rest;
  }

  lemma NoEscapeInside(params: string, i: nat)
    requires AllParamChars(params) && 0 < i < |SgrSequence(params)|
    ensures SgrSequence(params)[i] != ESC
  {
    if 2 <= i < |params| + 2 {
      assert SgrSequence(params)[i] == params[i - 2] && IsParamChar(params[i - 2]);
    }
  }

  lemma CutIn<T>(a: seq<T>, b: seq<T>, whole: seq<T>, rest: seq<T>)
    requires a + b == whole + rest
    ensures |a| <= |whole| ==> a == whole[..|a|] && b == whole[|a|..] + rest
    ensures |a| >= |whole| ==> a == whole + rest[..|a| - |whole|]
  {
    var all := whole + rest;
    assert a == all[..|a|] && b == all[|a|..];
  }

  /** A sequence is cut in two by the seam. */
  lemma SeamParts(a: string, b: string, params: string, rest: string)
    requires a != "" && SgrAt(a).None? && AllParamChars(params) && a + b == SgrSequence(params) + rest
    ensures |a| < |SgrSequence(params)|
    ensures var tail := SgrSequence(params)[|a|..];
            b == tail + rest && ESC !in tail && ESC !in a[1..] && a + tail == SgrSequence(params)
  {
    var whole := SgrSequence(params);
    CutIn(a, b, whole, rest);
    if |a| >= |whole| {
      SgrAtSequence(params, rest[..|a| - |whole|]);
      assert false;
    }
    forall i | 0 < i < |whole| ensures whole[i] != ESC {
      NoEscapeInside(params, i);
    }
    assert forall i :: 0 <= i < |a| - 1 ==> a[1..][i] == whole[i + 1];
  }

  lemma OpenHeadStays(a: string)
    requires a != "" && SgrAt(a).None? && ESC !in a[1..]
    ensures NormalizeAnsi(a) == a
  {
    NoEscapeNoChange(a[1..]);
    assert a == [a[0]] + a[1..];
  }

  lemma SequencesDiffer(params: string, x: string, light: string, y: string)
    requires AllParamChars(params) && AllParamChars(light) && SgrSequence(params) + x == SgrSequence(light) + y
    ensures params == light
  {
    SgrAtSequence(params, x);
    SgrAtSequence(light, y);
  }

  lemma {:induction false} NoEscapeAhead(tail: string, rest: string)
    requires ESC !in tail
    ensures NormalizeAnsi(tail + rest) == tail + NormalizeAnsi(rest)
  {
    if tail == "" {
      assert tail + rest == rest;
    } else {
      var ch, others := tail[0], tail[1..];
      assert tail == [ch] + others;
      NoEscapeAhead(others, rest);
      ConcatAssociates([ch], others, rest);
      NormalizeAnsiCons(ch, others + rest);
      ConcatAssociates([ch], others, NormalizeAnsi(rest));
    }
  }

  lemma CutSequenceHarmless(a: string, b: string, params: string, rest: string)
    requires a != "" && SgrAt(a).None? && AllParamChars(params) && a + b == SgrSequence(params) + rest
    requires LightParams(params) == params
    ensures NormalizeAnsi(a + b) == NormalizeAnsi(a) + NormalizeAnsi(b)
  {
    SeamParts(a, b, params, rest);
    var tail := SgrSequence(params)[|a|..];
    OpenHeadStays(a);
    NoEscapeAhead(tail, rest);
    NormalizeSequence(params, rest);
    ConcatAssociates(a, tail, NormalizeAnsi(rest));
  }

  lemma CutSequenceShows(a: string, b: string, x: string, params: string, rest: string)
    requires a != "" && SgrAt(a).None? && AllParamChars(params) && a + b == SgrSequence(params) + rest
    requires SameStart(b, x) && NormalizeAnsi(a + b) == NormalizeAnsi(a) + x
    ensures LightParams(params) == params
  {
    SeamParts(a, b, params, rest);
    var tail := SgrSequence(params)[|a|..];
    OpenHeadStays(a);
    assert b[..|tail|] == tail;
    assert x == tail + x[|tail|..];
    ConcatAssociates(a, tail, x[|tail|..]);
    NormalizeSequence(params, rest);
    LightParamsText(params);
    SequencesDiffer(params, x[|tail|..], LightParams(params), NormalizeAnsi(rest));
  }

  /** Rewriting in two parts is rewriting the whole. */
  ghost predicate Seamless(a: string, b: string) {
    NormalizeAnsi(a + b) == NormalizeAnsi(a) + NormalizeAnsi(b)
  }

  lemma SeamlessBehindSequence(params: string, rest: string, b: string)
    requires AllParamChars(params) && Seamless(rest, b)
    ensures Seamless(SgrSequence(params) + rest, b)
  {
    SequenceStays(params, rest, b);
    ConcatAssociates(SgrSequence(LightParams(params)), NormalizeAnsi(rest), NormalizeAnsi(b));
  }

  lemma SeamlessBehindCharacter(ch: char, rest: string, b: string)
    requires SgrAt([ch] + rest).None? && SgrAt([ch] + rest + b).None? && Seamless(rest, b)
    ensures Seamless([ch] + rest, b)
  {
    CharacterStays(ch, rest, b);
    ConcatAssociates([ch], NormalizeAnsi(rest), NormalizeAnsi(b));
  }

  lemma HarmlessCut(a: string, b: string, params: string)
    requires a != "" && SgrAt(a).None? && SgrAt(a + b).Some? && params == (a + b)[2..2 + SgrAt(a + b).value]
    ensures Harmless(a, b) <==> LightParams(params) == params
  {}

  lemma SeamlessInSequence(a: string, b: string)
    requires a != "" && SgrAt(a).None? && SgrAt(a + b).Some? && Harmless(a, b)
    ensures Seamless(a, b)
  {
    var n := SgrAt(a + b).value;
    var params, rest := (a + b)[2..2 + n], (a + b)[n + 3..];
    HarmlessCut(a, b, params);
    SplitSequence(a + b, n);
    CutSequenceHarmless(a, b, params, rest);
  }

  /** The text behind a first sequence or character that the seam leaves whole. */
  function Behind(a: string, b: string): Option<string> {
    if a == "" then None
    else match SgrAt(a)
      case Some(n) => Some(a[n + 3..])
      case None => if SgrAt(a + b).Some? then None else Some(a[1..])
  }

  lemma SeamlessBehind(a: string, b: string)
    requires Behind(a, b).Some? && Seamless(Behind(a, b).value, b)
    ensures Seamless(a, b)
  {
    match SgrAt(a)
    case Some(n) =>
      SplitSequence(a, n);
      SeamlessBehindSequence(a[2..2 + n], a[n + 3..], b);
    case None =>
      assert a == [a[0]] + a[1..];
      SeamlessBehindCharacter(a[0], a[1..], b);
  }

  lemma HarmlessBehind(a: string, b: string)
    requires Behind(a, b).Some?
    ensures Harmless(Behind(a, b).value, b) == Harmless(a, b) && |Behind(a, b).value| < |a|
  {}

  lemma {:induction false} HarmlessSeam(a: string, b: string)
    requires Harmless(a, b)
    ensures Seamless(a, b)
    decreases |a|
  {
    if a == "" {
      assert a + b == b;
    } else if Behind(a, b).Some? {
      HarmlessBehind(a, b);
      HarmlessSeam(Behind(a, b).value, b);
      SeamlessBehind(a, b);
    } else {
      SeamlessInSequence(a, b);
    }
  }

  /** However the second part is rewritten, the seam is harmless if the whole comes out. */
  ghost predicate Tells(a: string, b: string, x: string) {
    NormalizeAnsi(a + b) == NormalizeAnsi(a) + x ==> Harmless(a, b)
  }

  lemma TellsBehindSequence(params: string, rest: string, b: string, x: string)
    requires AllParamChars(params) && Tells(rest, b, x)
    ensures Tells(SgrSequence(params) + rest, b, x)
  {
    var a, front := SgrSequence(params) + rest, SgrSequence(LightParams(params));
    SequenceStays(params, rest, b);
    if NormalizeAnsi(a + b) == NormalizeAnsi(a) + x {
      ConcatAssociates(front, NormalizeAnsi(rest), x);
      PrefixCancels(front, NormalizeAnsi(rest + b), NormalizeAnsi(rest) + x);
    }
  }

  lemma TellsBehindCharacter(a: string, ch: char, rest: string, b: string, x: string)
    requires a == [ch] + rest && SgrAt(a).None? && SgrAt(a + b).None? && Tells(rest, b, x)
    ensures Tells(a, b, x)
  {
    CharacterStays(ch, rest, b);
    if NormalizeAnsi(a + b) == NormalizeAnsi(a) + x {
      ConcatAssociates([ch], NormalizeAnsi(rest), x);
      PrefixCancels([ch], NormalizeAnsi(rest + b), NormalizeAnsi(rest) + x);
    }
  }

  lemma TellsInSequence(a: string, b: string, x: string)
    requires a != "" && SgrAt(a).None? && SgrAt(a + b).Some? && SameStart(b, x)
    ensures Tells(a, b, x)
  {
    var n := SgrAt(a + b).value;
    var params, rest := (a + b)[2..2 + n], (a + b)[n + 3..];
    HarmlessCut(a, b, params);
    if NormalizeAnsi(a + b) == NormalizeAnsi(a) + x {
      SplitSequence(a + b, n);
      CutSequenceShows(a, b, x, params, rest);
    }
  }

  lemma TellsBehindFirstSequence(a: string, n: nat, b: string, x: string)
    requires SgrAt(a) == Some(n) && Tells(a[n + 3..], b, x)
    ensures Tells(a, b, x)
  {
    var params, rest := a[2..2 + n], a[n + 3..];
    TellsBehindSequence(params, rest, b, x);
    SplitSequence(a, n);
  }

  lemma HeadAndTail(a: string)
    requires a != ""
    ensures a == [a[0]] + a[1..]
  {}

  lemma TellsBehindFirstCharacter(a: string, b: string, x: string)
    requires a != "" && SgrAt(a).None? && SgrAt(a + b).None? && Tells(a[1..], b, x)
    ensures Tells(a, b, x)
  {
    var ch, rest := a[0], a[1..];
    HeadAndTail(a);
    TellsBehindCharacter(a, ch, rest, b, x);
  }

  lemma TellsBehind(a: string, b: string, x: string)
    requires Behind(a, b).Some? && Tells(Behind(a, b).value, b, x)
    ensures Tells(a, b, x)
  {
    if SgrAt(a).Some? {
      TellsBehindFirstSequence(a, SgrAt(a).value, b, x);
    } else {
      TellsBehindFirstCharacter(a, b, x);
    }
  }

  lemma {:induction false} SeamTells(a: string, b: string, x: string)
    requires SameStart(b, x)
    ensures Tells(a, b, x)
    decreases |a|
  {
    if a == "" {
      return;
    }
    if Behind(a, b).Some? {
      HarmlessBehind(a, b);
      SeamTells(Behind(a, b).value, b, x);
      TellsBehind(a, b, x);
    } else {
      TellsInSequence(a, b, x);
    }
  }

  // ---------------------------------------------------------------------------
  // The stream
  // ---------------------------------------------------------------------------

  /** Rewriting value by value gives the rewritten whole exactly if every seam is harmless. */
  lemma {:induction false} RewrittenStreamExactly(values: seq<string>)
    ensures Rewritten(values) == NormalizeAnsi(Flat(values)) <==> AllHarmless(values)
  {
    if values != [] {
      var first, rest, rewritten := values[0], Flat(values[1..]), Rewritten(values[1..]);
      RewrittenStreamExactly(values[1..]);
      if Harmless(first, rest) {
        HarmlessSeam(first, rest);
        if Rewritten(values) == NormalizeAnsi(Flat(values)) {
          PrefixCancels(NormalizeAnsi(first), rewritten, NormalizeAnsi(rest));
        }
      } else if Rewritten(values) == NormalizeAnsi(Flat(values)) {
        RewrittenKeepsStart(values[1..]);
        SeamTells(first, rest, rewritten);
      }
    }
  }

  /** Then the terminal shows the whole stream as it would in the dark theme, lightened. */
  lemma RewrittenStreamRenders(values: seq<string>, r: Rendition)
    requires AllHarmless(values)
    ensures Render(Rewritten(values), Lighten(r)) == LightenCells(Render(Flat(values), r))
  {
    RewrittenStreamExactly(values);
    NormalizeAnsiPreservesRendering(Flat(values), r);
  }

  // ---------------------------------------------------------------------------
  // It happens
  // ---------------------------------------------------------------------------

  lemma CodeOfWhite()
    ensures CodeOf("37") == Some(37)
  {
    assert "37"[..1] == "3" && "3"[..0] == "";
    assert DigitsValue("3") == 3;
  }

  lemma WhiteOperation(r: Rendition)
    ensures Operations(["37"]) == [Code("37")] && ApplyAll([Code("37")], r) == r.(foreground := Basic(7))
  {
    CodeOfWhite();
    assert ["37"][1..] == [] && [Code("37")][1..] == [];
    assert ApplyAll([Code("37")], r) == Apply(Code("37"), r);
  }

  /** White text is asked for. */
  lemma RenderWhite(text: string)
    ensures Render(SgrSequence("37") + text, PLAIN) == Render(text, PLAIN.(foreground := Basic(7)))
  {
    SplitWord("37", ';');
    WhiteOperation(PLAIN);
    RenderSequence("37", text, PLAIN);
  }

  lemma RenderLetter(r: Rendition)
    ensures Render("x", r) == [Cell('x', r)]
  {
    assert "x"[1..] == "";
  }

  /** A sequence for white text comes in two values: the letter behind it stays white, where the rewritten
      whole would show it in the default colour. */
  lemma StraddlingSequenceStaysWhite()
    ensures var values := [[ESC] + "[3", "7mx"];
            && Render(Rewritten(values), Lighten(PLAIN)) == [Cell('x', PLAIN.(foreground := Basic(7)))]
            && LightenCells(Render(Flat(values), PLAIN)) == [Cell('x', PLAIN)]
  {
    var a, b := [ESC] + "[3", "7mx";
    var values, whole := [a, b], SgrSequence("37") + "x";
    assert a + b == whole;
    TwoValues(a, b);
    HalfSequenceStays(a, b);
    RenderWhite("x");
    RenderLetter(PLAIN.(foreground := Basic(7)));
    LightenCons(Cell('x', PLAIN.(foreground := Basic(7))), []);
  }

  lemma FlatCons(value: string, values: seq<string>)
    ensures Flat([value] + values) == value + Flat(values)
    ensures Rewritten([value] + values) == NormalizeAnsi(value) + Rewritten(values)
  {
    assert ([value] + values)[1..] == values;
  }

  lemma TwoValues(a: string, b: string)
    ensures Flat([a, b]) == a + b && Rewritten([a, b]) == NormalizeAnsi(a) + NormalizeAnsi(b)
  {
    assert [a, b] == [a] + [b] && [b] == [b] + [];
    FlatCons(a, [b]);
    FlatCons(b, []);
    assert b + "" == b && NormalizeAnsi(b) + "" == NormalizeAnsi(b);
  }

  lemma HalfSequenceStays(a: string, b: string)
    requires a == [ESC] + "[3" && ESC !in b
    ensures NormalizeAnsi(a) == a && NormalizeAnsi(b) == b
  {
    assert a[2..] == "3" && "3"[1..] == "";
    assert ParamRun("3") == 1;
    assert a[1..] == "[3";
    OpenHeadStays(a);
    NoEscapeNoChange(b);
  }
}
