/**
 Rewriting of terminal colour sequences for the light theme (src/terminal/session.ts, 64-86 and
 190-252): inside every `ESC [ params m` the foreground codes 37 and 97 become 39 (default) and the
 background codes 40 and 100 become 49 (default); everything else is passed through.

 The promise is that only those four colours change. It is stated against a reading of SGR
 parameters as colour operations (ECMA-48 section 8.3.117; extended colours as in ITU-T T.416
 section 13.1.8) and, for whole texts, against the rendition every printed character ends up with.
 */
module TerminalTheme {
  import opened Prelude

  datatype ThemeMode = Light | Dark

  const ESC: char := '\U{1B}'
  const EXTENDED_FOREGROUND: nat := 38
  const EXTENDED_BACKGROUND: nat := 48
  const INDEXED_COLOR_MODE: nat := 5
  const RGB_COLOR_MODE: nat := 2
  const DEFAULT_FOREGROUND := "39"
  const DEFAULT_BACKGROUND := "49"

  predicate IsForcedForeground(code: nat) {
    code == 37 || code == 97
  }

  predicate IsForcedBackground(code: nat) {
    code == 40 || code == 100
  }

  // ---------------------------------------------------------------------------
  // Parameters as text
  // ---------------------------------------------------------------------------

  /** The characters `[0-9;]` that the SGR pattern admits between `ESC [` and `m`. */
  predicate IsParamChar(c: char) {
    IsDigit(c) || c == ';'
  }

  predicate AllParamChars(params: string) {
    forall i :: 0 <= i < |params| ==> IsParamChar(params[i])
  }

  /** `rawPart === '' ? 0 : Number(rawPart)`, or None where `Number.isInteger` is false. */
  function CodeOf(raw: string): Option<nat> {
    if AllDigits(raw) then Some(DigitsValue(raw)) else None
  }

  lemma DefaultCodes()
    ensures CodeOf(DEFAULT_FOREGROUND) == Some(39)
    ensures CodeOf(DEFAULT_BACKGROUND) == Some(49)
  {
    assert "39"[..1] == "3" && "3"[..0] == "";
    assert DigitsValue("3") == 3;
    assert "49"[..1] == "4" && "4"[..0] == "";
    assert DigitsValue("4") == 4;
  }

  lemma {:induction false} SplitParams(params: string)
    requires AllParamChars(params)
    ensures forall i :: 0 <= i < |Split(params, ';')| ==> AllDigits(Split(params, ';')[i])
  {
    if params != "" {
      SplitParams(params[1..]);
    }
  }

  lemma {:induction false} JoinParams(parts: seq<string>)
    requires forall i :: 0 <= i < |parts| ==> AllDigits(parts[i])
    ensures AllParamChars(Join(parts, ';'))
  {
    if |parts| > 1 {
      JoinParams(parts[1..]);
    }
  }

  // ---------------------------------------------------------------------------
  // Parameters as colour operations
  // ---------------------------------------------------------------------------

  /** One operation of a parameter list: a plain code, or 38/48 with the arguments it takes. */
  datatype Operation = Code(raw: string) | ExtendedColor(raw: string, args: seq<string>)

  /** How many of the parameters after 38/48 belong to it: the mode, then 1 or 3 components. */
  function ExtendedArgumentCount(rest: seq<string>): (n: nat)
    ensures n <= |rest|
  {
    if rest == [] then 0
    else match CodeOf(rest[0])
      case Some(mode) =>
        if mode == INDEXED_COLOR_MODE then 1 + Min(1, |rest| - 1)
        else if mode == RGB_COLOR_MODE then 1 + Min(3, |rest| - 1)
        else 1
      case None => 1
  }

  lemma ExtendedArgumentCountAgrees(a: seq<string>, b: seq<string>)
    requires |a| == |b|
    requires a[..ExtendedArgumentCount(a)] == b[..ExtendedArgumentCount(a)]
    ensures ExtendedArgumentCount(b) == ExtendedArgumentCount(a)
  {
    if a != [] {
      assert a[0] == a[..ExtendedArgumentCount(a)][0] == b[..ExtendedArgumentCount(a)][0] == b[0];
    }
  }

  predicate IsExtended(raw: string) {
    CodeOf(raw) == Some(EXTENDED_FOREGROUND) || CodeOf(raw) == Some(EXTENDED_BACKGROUND)
  }

  function Operations(parts: seq<string>): seq<Operation> {
    if parts == [] then []
    else if IsExtended(parts[0]) then
      var n := ExtendedArgumentCount(parts[1..]);
      [ExtendedColor(parts[0], parts[1..1 + n])] + Operations(parts[1 + n..])
    else [Code(parts[0])] + Operations(parts[1..])
  }

  function PartsOf(ops: seq<Operation>): seq<string> {
    if ops == [] then []
    else
      (match ops[0]
       case Code(raw) => [raw]
       case ExtendedColor(raw, args) => [raw] + args)
      + PartsOf(ops[1..])
  }

  /** The operations keep every parameter, in order. */
  lemma {:induction false} OperationsLossless(parts: seq<string>)
    ensures PartsOf(Operations(parts)) == parts
  {
    if parts != [] {
      if IsExtended(parts[0]) {
        var n := ExtendedArgumentCount(parts[1..]);
        OperationsLossless(parts[1 + n..]);
        assert parts == [parts[0]] + parts[1..1 + n] + parts[1 + n..];
      } else {
        OperationsLossless(parts[1..]);
      }
    }
  }

  function LightCode(raw: string): string {
    match CodeOf(raw)
    case Some(code) =>
      if IsForcedForeground(code) then DEFAULT_FOREGROUND
      else if IsForcedBackground(code) then DEFAULT_BACKGROUND
      else raw
    case None => raw
  }

  /** What the light theme asks for: only the four forced colours change. */
  function LightOperation(op: Operation): Operation {
    match op
    case Code(raw) => Code(LightCode(raw))
    case ExtendedColor(_, _) => op
  }

  function LightOperations(ops: seq<Operation>): (r: seq<Operation>)
    ensures |r| == |ops|
    ensures forall i :: 0 <= i < |ops| ==> r[i] == LightOperation(ops[i])
  {
    if ops == [] then [] else [LightOperation(ops[0])] + LightOperations(ops[1..])
  }

  /** The rewritten parameter list, as a list. */
  function LightParts(parts: seq<string>): seq<string> {
    PartsOf(LightOperations(Operations(parts)))
  }

  lemma LightPartsStep(parts: seq<string>)
    requires parts != []
    ensures
      if IsExtended(parts[0]) then
        var n := ExtendedArgumentCount(parts[1..]);
        LightParts(parts) == parts[..1 + n] + LightParts(parts[1 + n..])
      else
        LightParts(parts) == [LightCode(parts[0])] + LightParts(parts[1..])
  {
    if IsExtended(parts[0]) {
      var n := ExtendedArgumentCount(parts[1..]);
      var ops := Operations(parts);
      assert ops[1..] == Operations(parts[1 + n..]);
      assert parts[..1 + n] == [parts[0]] + parts[1..1 + n];
    } else {
      assert Operations(parts)[1..] == Operations(parts[1..]);
    }
  }

  /** A rewritten code is again a plain code, which the light theme leaves alone. */
  lemma LightCodeSettled(raw: string)
    requires !IsExtended(raw)
    ensures !IsExtended(LightCode(raw))
    ensures AllDigits(raw) ==> AllDigits(LightCode(raw))
  {
    DefaultCodes();
  }

  lemma LightOperationSettled(op: Operation)
    ensures LightOperation(LightOperation(op)) == LightOperation(op)
  {
    DefaultCodes();
  }

  /** The rewritten list has the same length, and read again it denotes exactly the light version
      of the same operations; so extended-colour arguments are never taken for codes. */
  lemma {:induction false} RewrittenDenotesLightOperations(parts: seq<string>)
    ensures |LightParts(parts)| == |parts|
    ensures Operations(LightParts(parts)) == LightOperations(Operations(parts))
  {
    if parts == [] {
      return;
    }
    LightPartsStep(parts);
    var light := LightParts(parts);
    if IsExtended(parts[0]) {
      var n := ExtendedArgumentCount(parts[1..]);
      RewrittenDenotesLightOperations(parts[1 + n..]);
      assert light[1..][..n] == parts[1..][..n];
      assert light[1 + n..] == LightParts(parts[1 + n..]);
      ExtendedArgumentCountAgrees(parts[1..], light[1..]);
      assert Operations(parts)[1..] == Operations(parts[1 + n..]);
    } else {
      LightCodeSettled(parts[0]);
      RewrittenDenotesLightOperations(parts[1..]);
      assert light[1..] == LightParts(parts[1..]);
      assert Operations(parts)[1..] == Operations(parts[1..]);
    }
  }

  lemma {:induction false} LightOperationsIdempotent(ops: seq<Operation>)
    ensures LightOperations(LightOperations(ops)) == LightOperations(ops)
  {
    forall i | 0 <= i < |ops| ensures LightOperation(LightOperation(ops[i])) == LightOperation(ops[i]) {
      LightOperationSettled(ops[i]);
    }
  }

  lemma LightPartsIdempotent(parts: seq<string>)
    ensures LightParts(LightParts(parts)) == LightParts(parts)
  {
    RewrittenDenotesLightOperations(parts);
    LightOperationsIdempotent(Operations(parts));
  }

  lemma {:induction false} LightPartsDigits(parts: seq<string>)
    requires forall i :: 0 <= i < |parts| ==> AllDigits(parts[i])
    ensures forall i :: 0 <= i < |LightParts(parts)| ==> AllDigits(LightParts(parts)[i])
  {
    if parts != [] {
      LightPartsStep(parts);
      if IsExtended(parts[0]) {
        LightPartsDigits(parts[1 + ExtendedArgumentCount(parts[1..])..]);
      } else {
        LightCodeSettled(parts[0]);
        LightPartsDigits(parts[1..]);
      }
    }
  }

  function LightParams(params: string): string {
    Join(LightParts(Split(params, ';')), ';')
  }

  lemma LightParamsText(params: string)
    requires AllParamChars(params)
    ensures AllParamChars(LightParams(params))
    ensures Split(LightParams(params), ';') == LightParts(Split(params, ';'))
    ensures LightParams(LightParams(params)) == LightParams(params)
  {
    var parts := Split(params, ';');
    SplitParams(params);
    LightPartsDigits(parts);
    JoinParams(LightParts(parts));
    RewrittenDenotesLightOperations(parts);
    forall i | 0 <= i < |LightParts(parts)| ensures ';' !in LightParts(parts)[i] {
      assert AllDigits(LightParts(parts)[i]);
    }
    SplitJoin(LightParts(parts), ';');
    LightPartsIdempotent(parts);
  }

  /** 38 or 48 at `start`: copies it, its mode and the components the mode takes. */
  method PushExtendedColor(parts: seq<string>, start: nat, normalized: seq<string>)
    returns (pushed: seq<string>, index: nat)
    requires start < |parts|
    requires forall i :: 0 <= i < |parts| ==> AllDigits(parts[i])
    ensures index == start + ExtendedArgumentCount(parts[start + 1..])
    ensures index < |parts| && pushed == normalized + parts[start..index + 1]
  {
    pushed := normalized + [parts[start]];
    index := start;
    if index + 1 < |parts| {
      var mode := DigitsValue(parts[index + 1]);
      pushed := pushed + [parts[index + 1]];
      index := index + 1;
      if mode == INDEXED_COLOR_MODE {
        if index + 1 < |parts| {
          pushed := pushed + [parts[index + 1]];
          index := index + 1;
        }
      } else if mode == RGB_COLOR_MODE {
        var channel := 0;
        while channel < 3 && index + 1 < |parts|
          invariant 0 <= channel <= 3
          invariant index == start + 1 + channel < |parts|
          invariant pushed == normalized + parts[start..index + 1]
        {
          pushed := pushed + [parts[index + 1]];
          index := index + 1;
          channel := channel + 1;
        }
      }
    }
  }

  lemma ExtendedTurn(parts: seq<string>, index: nat, normalized: seq<string>, next: nat)
    requires index < next <= |parts| && IsExtended(parts[index])
    requires next == index + 1 + ExtendedArgumentCount(parts[index + 1..])
    ensures normalized + parts[index..next] + LightParts(parts[next..]) == normalized + LightParts(parts[index..])
  {
    var rest, n := parts[index..], next - index;
    LightPartsStep(rest);
    assert rest[1..] == parts[index + 1..];
    assert rest[..n] == parts[index..next] && rest[n..] == parts[next..];
    ConcatAssociates(normalized, parts[index..next], LightParts(parts[next..]));
  }

  lemma PlainTurn(parts: seq<string>, index: nat, normalized: seq<string>)
    requires index < |parts| && !IsExtended(parts[index])
    ensures normalized + [LightCode(parts[index])] + LightParts(parts[index + 1..])
         == normalized + LightParts(parts[index..])
  {
    LightPartsStep(parts[index..]);
    assert parts[index..][1..] == parts[index + 1..];
    ConcatAssociates(normalized, [LightCode(parts[index])], LightParts(parts[index + 1..]));
  }

  /** One turn of the rewriter's loop: the parameter at `index`, with the arguments it takes. */
  method PushParameter(parts: seq<string>, index: nat, normalized: seq<string>)
    returns (pushed: seq<string>, next: nat)
    requires index < |parts|
    requires forall i :: 0 <= i < |parts| ==> AllDigits(parts[i])
    ensures index < next <= |parts|
    ensures pushed + LightParts(parts[next..]) == normalized + LightParts(parts[index..])
  {
    var rawPart := parts[index];
    if IsExtended(rawPart) {
      var last;
      pushed, last := PushExtendedColor(parts, index, normalized);
      next := last + 1;
      ExtendedTurn(parts, index, normalized, next);
    } else {
      pushed := normalized + [LightCode(rawPart)];
      next := index + 1;
      PlainTurn(parts, index, normalized);
    }
  }

  /** The rewriter itself. Called only with the text captured between `ESC [` and `m`. */
  method NormalizeSgrParams(params: string) returns (result: string)
    requires AllParamChars(params)
    ensures result == LightParams(params)
  {
    SplitParams(params);
    var parts := Split(params, ';');
    if params == "" {
      LightPartsStep(parts);
      assert LightParts([]) == [];
      return params;
    }
    var normalized: seq<string> := [];
    var index := 0;
    while index < |parts|
      invariant 0 <= index <= |parts|
      invariant normalized + LightParts(parts[index..]) == LightParts(parts)
    {
      normalized, index := PushParameter(parts, index, normalized);
    }
    assert normalized == LightParts(parts);
    result := Join(normalized, ';');
  }

  // ---------------------------------------------------------------------------
  // Renditions: what the operations mean to a terminal
  // ---------------------------------------------------------------------------

  datatype Color = Default | Basic(index: nat) | Extended(args: seq<string>)

  /** Colours in force, and the non-colour codes given since the last reset. */
  datatype Rendition = Rendition(foreground: Color, background: Color, attributes: seq<nat>)

  const PLAIN := Rendition(Default, Default, [])

  function Apply(op: Operation, r: Rendition): Rendition {
    match op
    case ExtendedColor(raw, args) =>
      if CodeOf(raw) == Some(EXTENDED_FOREGROUND) then r.(foreground := Extended(args))
      else r.(background := Extended(args))
    case Code(raw) =>
      match CodeOf(raw)
      case None => r
      case Some(code) => ApplyCode(code, r)
  }

  function ApplyCode(code: nat, r: Rendition): Rendition {
    if code == 0 then PLAIN
    else if 30 <= code <= 37 then r.(foreground := Basic(code - 30))
    else if 90 <= code <= 97 then r.(foreground := Basic(code - 82))
    else if code == 39 then r.(foreground := Default)
    else if 40 <= code <= 47 then r.(background := Basic(code - 40))
    else if 100 <= code <= 107 then r.(background := Basic(code - 92))
    else if code == 49 then r.(background := Default)
    else r.(attributes := r.attributes + [code])
  }

  function ApplyAll(ops: seq<Operation>, r: Rendition): Rendition {
    if ops == [] then r else ApplyAll(ops[1..], Apply(ops[0], r))
  }

  /** White and bright white text, black and bright black background, fall back to the default. */
  function Lighten(r: Rendition): Rendition {
    Rendition(
      if r.foreground == Basic(7) || r.foreground == Basic(15) then Default else r.foreground,
      if r.background == Basic(0) || r.background == Basic(8) then Default else r.background,
      r.attributes)
  }

  lemma ApplyCodeLight(code: nat, r: Rendition)
    ensures IsForcedForeground(code) ==> ApplyCode(39, Lighten(r)) == Lighten(ApplyCode(code, r))
    ensures IsForcedBackground(code) ==> ApplyCode(49, Lighten(r)) == Lighten(ApplyCode(code, r))
    ensures !IsForcedForeground(code) && !IsForcedBackground(code) ==>
              ApplyCode(code, Lighten(r)) == Lighten(ApplyCode(code, r))
  {}

  lemma ApplyLight(op: Operation, r: Rendition)
    ensures Apply(LightOperation(op), Lighten(r)) == Lighten(Apply(op, r))
  {
    DefaultCodes();
    if op.Code? && CodeOf(op.raw).Some? {
      ApplyCodeLight(CodeOf(op.raw).value, r);
    }
  }

  lemma {:induction false} ApplyAllLight(ops: seq<Operation>, r: Rendition)
    ensures ApplyAll(LightOperations(ops), Lighten(r)) == Lighten(ApplyAll(ops, r))
  {
    if ops != [] {
      ApplyLight(ops[0], r);
      ApplyAllLight(ops[1..], Apply(ops[0], r));
      assert LightOperations(ops)[1..] == LightOperations(ops[1..]);
    }
  }

  // ---------------------------------------------------------------------------
  // Whole texts
  // ---------------------------------------------------------------------------

  function ParamRun(text: string): (n: nat)
    ensures n <= |text|
    ensures AllParamChars(text[..n])
    ensures n < |text| ==> !IsParamChar(text[n])
  {
    if text == "" || !IsParamChar(text[0]) then 0
    else
      var n := 1 + ParamRun(text[1..]);
      assert forall i :: 0 < i < n ==> text[i] == text[1..][i - 1];
      n
  }

  /** The parameter length of the SGR sequence the text starts with, if it starts with one. */
  function SgrAt(text: string): (n: Option<nat>)
    ensures n.Some? ==>
              |text| >= n.value + 3 && text[0] == ESC && text[1] == '[' && text[2 + n.value] == 'm'
              && AllParamChars(text[2..2 + n.value])
  {
    if |text| >= 2 && text[0] == ESC && text[1] == '[' then
      var n := ParamRun(text[2..]);
      assert text[2..][..n] == text[2..2 + n];
      if 2 + n < |text| && text[2 + n] == 'm' then Some(n) else None
    else None
  }

  function SgrSequence(params: string): string {
    [ESC, '['] + params + "m"
  }

  /** `value.replace(ANSI_SGR_PATTERN, …)`: every match, leftmost first, rewritten in place. */
  function NormalizeAnsi(text: string): string {
    if text == "" then ""
    else match SgrAt(text)
      case Some(n) => SgrSequence(LightParams(text[2..2 + n])) + NormalizeAnsi(text[n + 3..])
      case None => [text[0]] + NormalizeAnsi(text[1..])
  }

  function NormalizeForTheme(text: string, theme: ThemeMode): string {
    if theme != Light || text == "" then text else NormalizeAnsi(text)
  }

  /** A character as it reaches the screen. Control characters outside SGR are passed on as they are. */
  datatype Cell = Cell(ch: char, rendition: Rendition)

  function Render(text: string, r: Rendition): seq<Cell> {
    if text == "" then []
    else match SgrAt(text)
      case Some(n) =>
        Render(text[n + 3..], ApplyAll(Operations(Split(text[2..2 + n], ';')), r))
      case None => [Cell(text[0], r)] + Render(text[1..], r)
  }

  function LightenCells(cells: seq<Cell>): (r: seq<Cell>)
    ensures |r| == |cells|
    ensures forall i :: 0 <= i < |cells| ==> r[i] == Cell(cells[i].ch, Lighten(cells[i].rendition))
  {
    if cells == [] then []
    else [Cell(cells[0].ch, Lighten(cells[0].rendition))] + LightenCells(cells[1..])
  }

  lemma {:induction false} ParamRunOf(params: string, rest: string)
    requires AllParamChars(params)
    requires rest != "" ==> !IsParamChar(rest[0])
    ensures ParamRun(params + rest) == |params|
  {
    if params == "" {
      assert params + rest == rest;
    } else {
      assert (params + rest)[1..] == params[1..] + rest;
      ParamRunOf(params[1..], rest);
    }
  }

  lemma SgrAtSequence(params: string, rest: string)
    requires AllParamChars(params)
    ensures SgrAt(SgrSequence(params) + rest) == Some(|params|)
    ensures (SgrSequence(params) + rest)[2..2 + |params|] == params
    ensures (SgrSequence(params) + rest)[|params| + 3..] == rest
  {
    var text := SgrSequence(params) + rest;
    assert text[2..] == params + ("m" + rest);
    ParamRunOf(params, "m" + rest);
  }

  lemma NormalizeAnsiHead(text: string)
    ensures (NormalizeAnsi(text) == "") == (text == "")
    ensures text != "" ==> NormalizeAnsi(text)[0] == text[0]
  {}

  lemma NormalizeAnsiCons(ch: char, rest: string)
    requires SgrAt([ch] + rest).None?
    ensures NormalizeAnsi([ch] + rest) == [ch] + NormalizeAnsi(rest)
  {
    assert ([ch] + rest)[1..] == rest;
  }

  /** What a text shows of the sequence that is open where it begins: the rest of the parameters, and what
      ends them. */
  ghost predicate SameRun(a: string, b: string) {
    && ParamRun(a) == ParamRun(b) && (ParamRun(a) < |a| <==> ParamRun(a) < |b|)
    && (ParamRun(a) < |a| ==> a[ParamRun(a)] == b[ParamRun(a)])
  }

  lemma SameRunCons(ch: char, a: string, b: string)
    requires SameRun(a, b)
    ensures SameRun([ch] + a, [ch] + b)
  {
    assert ([ch] + a)[1..] == a && ([ch] + b)[1..] == b;
  }

  /** Rewriting what follows does not change whether a run of parameters ends in `m`. */
  lemma {:induction false} NormalizeAnsiKeepsRun(text: string)
    ensures SameRun(text, NormalizeAnsi(text))
  {
    NormalizeAnsiHead(text);
    if text != "" && IsParamChar(text[0]) {
      var ch, rest := text[0], text[1..];
      NormalizeAnsiKeepsRun(rest);
      assert text == [ch] + rest;
      NormalizeAnsiCons(ch, rest);
      SameRunCons(ch, rest, NormalizeAnsi(rest));
    }
  }

  lemma SgrAtOpen(rest: string)
    ensures SgrAt([ESC, '['] + rest)
         == if ParamRun(rest) < |rest| && rest[ParamRun(rest)] == 'm' then Some(ParamRun(rest)) else None
  {
    var text := [ESC, '['] + rest;
    assert text[2..] == rest;
    assert ParamRun(rest) < |rest| ==> text[2 + ParamRun(rest)] == rest[ParamRun(rest)];
  }

  lemma SgrAtElse(ch: char, rest: string)
    requires ch != ESC || rest == "" || rest[0] != '['
    ensures SgrAt([ch] + rest).None?
  {}

  lemma OpenStaysOpen(rest: string)
    requires SgrAt([ESC, '['] + rest).None?
    ensures SgrAt([ESC, '['] + NormalizeAnsi(rest)).None?
  {
    NormalizeAnsiKeepsRun(rest);
    SgrAtOpen(rest);
    SgrAtOpen(NormalizeAnsi(rest));
  }

  lemma NormalizeBracket(rest: string)
    ensures [ESC] + NormalizeAnsi(['['] + rest) == [ESC, '['] + NormalizeAnsi(rest)
  {
    SgrAtElse('[', rest);
    NormalizeAnsiCons('[', rest);
    assert [ESC] + (['['] + NormalizeAnsi(rest)) == [ESC, '['] + NormalizeAnsi(rest);
  }

  lemma NoNewSequence(ch: char, rest: string)
    requires SgrAt([ch] + rest).None?
    ensures SgrAt([ch] + NormalizeAnsi(rest)).None?
  {
    NormalizeAnsiHead(rest);
    if ch == ESC && rest != "" && rest[0] == '[' {
      var params := rest[1..];
      assert rest == ['['] + params;
      assert [ch] + rest == [ESC, '['] + params;
      OpenStaysOpen(params);
      NormalizeBracket(params);
    } else {
      SgrAtElse(ch, NormalizeAnsi(rest));
    }
  }

  lemma NormalizeSequence(params: string, rest: string)
    requires AllParamChars(params)
    ensures NormalizeAnsi(SgrSequence(params) + rest) == SgrSequence(LightParams(params)) + NormalizeAnsi(rest)
  {
    SgrAtSequence(params, rest);
  }

  lemma RenderSequence(params: string, rest: string, r: Rendition)
    requires AllParamChars(params)
    ensures Render(SgrSequence(params) + rest, r) == Render(rest, ApplyAll(Operations(Split(params, ';')), r))
  {
    SgrAtSequence(params, rest);
  }

  lemma RenderCons(ch: char, rest: string, r: Rendition)
    requires SgrAt([ch] + rest).None?
    ensures Render([ch] + rest, r) == [Cell(ch, r)] + Render(rest, r)
  {
    assert ([ch] + rest)[1..] == rest;
  }

  lemma LightParamsDenote(params: string, r: Rendition)
    requires AllParamChars(params)
    ensures AllParamChars(LightParams(params))
    ensures ApplyAll(Operations(Split(LightParams(params), ';')), Lighten(r))
         == Lighten(ApplyAll(Operations(Split(params, ';')), r))
  {
    LightParamsText(params);
    RewrittenDenotesLightOperations(Split(params, ';'));
    ApplyAllLight(Operations(Split(params, ';')), r);
  }

  lemma LightenCons(cell: Cell, cells: seq<Cell>)
    ensures LightenCells([cell] + cells) == [Cell(cell.ch, Lighten(cell.rendition))] + LightenCells(cells)
  {
    assert ([cell] + cells)[1..] == cells;
  }

  ghost predicate PreservesRendering(text: string, r: Rendition) {
    Render(NormalizeAnsi(text), Lighten(r)) == LightenCells(Render(text, r))
  }

  lemma SequencePreservesRendering(params: string, rest: string, r: Rendition)
    requires AllParamChars(params)
    requires PreservesRendering(rest, ApplyAll(Operations(Split(params, ';')), r))
    ensures PreservesRendering(SgrSequence(params) + rest, r)
  {
    LightParamsDenote(params, r);
    NormalizeSequence(params, rest);
    RenderSequence(LightParams(params), NormalizeAnsi(rest), Lighten(r));
    RenderSequence(params, rest, r);
  }

  lemma CharacterPreservesRendering(ch: char, rest: string, r: Rendition)
    requires SgrAt([ch] + rest).None? && PreservesRendering(rest, r)
    ensures PreservesRendering([ch] + rest, r)
  {
    NoNewSequence(ch, rest);
    NormalizeAnsiCons(ch, rest);
    RenderCons(ch, NormalizeAnsi(rest), Lighten(r));
    RenderCons(ch, rest, r);
    LightenCons(Cell(ch, r), Render(rest, r));
  }

  lemma SplitSequence(text: string, n: nat)
    requires SgrAt(text) == Some(n)
    ensures text == SgrSequence(text[2..2 + n]) + text[n + 3..]
  {
    var params := text[2..2 + n];
    assert text == text[..2] + params + text[2 + n..n + 3] + text[n + 3..];
    assert text[..2] == [ESC, '['] && text[2 + n..n + 3] == "m";
  }

  lemma {:induction false} EveryTextPreservesRendering(text: string, r: Rendition)
    ensures PreservesRendering(text, r)
    decreases |text|
  {
    if text != "" {
      match SgrAt(text)
      case Some(n) =>
        var params, rest := text[2..2 + n], text[n + 3..];
        SplitSequence(text, n);
        EveryTextPreservesRendering(rest, ApplyAll(Operations(Split(params, ';')), r));
        SequencePreservesRendering(params, rest, r);
      case None =>
        var ch, rest := text[0], text[1..];
        assert text == [ch] + rest;
        EveryTextPreservesRendering(rest, r);
        CharacterPreservesRendering(ch, rest, r);
    }
  }

  /** The meaning of the rewriting: every character is printed, in order, with the rendition it
      had, except that the four forced colours show as the default ones. */
  lemma NormalizeAnsiPreservesRendering(text: string, r: Rendition)
    ensures Render(NormalizeAnsi(text), Lighten(r)) == LightenCells(Render(text, r))
  {
    EveryTextPreservesRendering(text, r);
  }

  ghost predicate IsFixed(text: string) {
    NormalizeAnsi(NormalizeAnsi(text)) == NormalizeAnsi(text)
  }

  lemma FixedBehindSequence(params: string, rest: string)
    requires AllParamChars(params) && IsFixed(rest)
    ensures IsFixed(SgrSequence(params) + rest)
  {
    LightParamsText(params);
    NormalizeSequence(params, rest);
    NormalizeSequence(LightParams(params), NormalizeAnsi(rest));
  }

  lemma FixedBehindCharacter(ch: char, rest: string)
    requires SgrAt([ch] + rest).None? && IsFixed(rest)
    ensures IsFixed([ch] + rest)
  {
    NoNewSequence(ch, rest);
    NormalizeAnsiCons(ch, rest);
    NormalizeAnsiCons(ch, NormalizeAnsi(rest));
  }

  lemma {:induction false} NormalizeAnsiIsFixed(text: string)
    ensures IsFixed(text)
    decreases |text|
  {
    if text != "" {
      match SgrAt(text)
      case Some(n) =>
        var params, rest := text[2..2 + n], text[n + 3..];
        SplitSequence(text, n);
        NormalizeAnsiIsFixed(rest);
        FixedBehindSequence(params, rest);
      case None =>
        var ch, rest := text[0], text[1..];
        assert text == [ch] + rest;
        NormalizeAnsiIsFixed(rest);
        FixedBehindCharacter(ch, rest);
    }
  }

  lemma NormalizeAnsiIdempotent(text: string)
    ensures NormalizeAnsi(NormalizeAnsi(text)) == NormalizeAnsi(text)
  {
    NormalizeAnsiIsFixed(text);
  }
}
