/**
 Which parameters of a colour sequence are rewritten (src/terminal/session.ts, 78-86 and 190-252): the plain codes
 37, 97, 40 and 100, and nothing that belongs to an extended colour, read as ITU-T T.416 section 13.1.8 has it.
 */
module ThemeCodes {
  import opened Prelude
  import opened TerminalTheme

  /** A parameter is read as the number it is written as; an empty one counts as 0. */
  lemma CodesAreNumbers(n: nat)
    ensures CodeOf(Decimal(n)) == Some(n) && CodeOf("") == Some(0)
  {
    DecimalRoundTrip(n);
  }

  lemma PartsBehind(front: seq<string>, rest: seq<string>)
    ensures forall k: nat :: k <= |front| ==> (front + rest)[k..] == front[k..] + rest
    ensures (front + rest)[|front|..] == rest
  {}

  /** The extended colour at the head of a list passes through with its arguments. */
  lemma ColourPasses(front: seq<string>, rest: seq<string>)
    requires front != [] && CodeOf(front[0]) in {Some(38), Some(48)}
    requires ExtendedArgumentCount((front + rest)[1..]) == |front| - 1
    ensures LightParts(front + rest) == front + LightParts(rest)
  {
    PartsBehind(front, rest);
    LightPartsStep(front + rest);
    assert (front + rest)[..|front|] == front;
  }

  /** Of a colour by its channels the mode and three channels are kept as they are, whatever numbers they are, and
      rewriting goes on behind them. */
  lemma ChannelsAreKept(raw: string, mode: string, red: string, green: string, blue: string, rest: seq<string>)
    requires CodeOf(raw) in {Some(38), Some(48)} && CodeOf(mode) == Some(2)
    ensures LightParts([raw, mode, red, green, blue] + rest) == [raw, mode, red, green, blue] + LightParts(rest)
  {
    PartsBehind([raw, mode, red, green, blue], rest);
    ColourPasses([raw, mode, red, green, blue], rest);
  }

  /** Of a colour by its index the mode and the index are. */
  lemma IndexIsKept(raw: string, mode: string, index: string, rest: seq<string>)
    requires CodeOf(raw) in {Some(38), Some(48)} && CodeOf(mode) == Some(5)
    ensures LightParts([raw, mode, index] + rest) == [raw, mode, index] + LightParts(rest)
  {
    PartsBehind([raw, mode, index], rest);
    ColourPasses([raw, mode, index], rest);
  }

  /** In any other mode only the mode is. */
  lemma OtherModeIsKept(raw: string, mode: string, rest: seq<string>)
    requires CodeOf(raw) in {Some(38), Some(48)} && CodeOf(mode) !in {Some(2), Some(5)}
    ensures LightParts([raw, mode] + rest) == [raw, mode] + LightParts(rest)
  {
    PartsBehind([raw, mode], rest);
    ColourPasses([raw, mode], rest);
  }

  /** A colour that the list breaks off in is kept as far as it goes. */
  lemma BrokenColourIsKept(raw: string, mode: string, channels: seq<string>)
    requires CodeOf(raw) in {Some(38), Some(48)}
    requires (CodeOf(mode) == Some(2) && |channels| <= 3) || (CodeOf(mode) == Some(5) && |channels| <= 1)
    ensures LightParts([raw]) == [raw] && LightParts([raw, mode] + channels) == [raw, mode] + channels
  {
    assert LightParts([]) == [];
    assert [raw] + [] == [raw];
    ColourPasses([raw], []);
    var all := [raw, mode] + channels;
    assert all + [] == all && all[1..] == [mode] + channels;
    ColourPasses(all, []);
  }

  /** Any other parameter is a code of its own: white and bright white text, and black and bright black background, become
      the default; everything else stays. */
  lemma PlainCode(raw: string, rest: seq<string>)
    requires CodeOf(raw) !in {Some(38), Some(48)}
    ensures LightParts([raw] + rest)
         == [if CodeOf(raw) in {Some(37), Some(97)} then "39" else if CodeOf(raw) in {Some(40), Some(100)} then "49" else raw]
            + LightParts(rest)
  {
    assert ([raw] + rest)[1..] == rest;
    LightPartsStep([raw] + rest);
  }

  // ---------------------------------------------------------------------------
  // How the list is read
  // ---------------------------------------------------------------------------

  function Number(op: Operation): Option<nat> {
    if op.Code? then CodeOf(op.raw) else None
  }

  /** The text colour an operation sets: 0 and 39 the default, 30 to 37 and 90 to 97 the sixteen basic ones, 38 an
      extended one. */
  ghost predicate SetsForeground(op: Operation, color: Color) {
    || (op.ExtendedColor? && CodeOf(op.raw) == Some(38) && color == Extended(op.args))
    || (Number(op) in {Some(0), Some(39)} && color == Default)
    || exists i: nat :: i < 16 && color == Basic(i) && Number(op) == Some(if i < 8 then 30 + i else 82 + i)
  }

  /** The background it sets: the same with 49, 40 to 47, 100 to 107, and 48. */
  ghost predicate SetsBackground(op: Operation, color: Color) {
    || (op.ExtendedColor? && CodeOf(op.raw) == Some(48) && color == Extended(op.args))
    || (Number(op) in {Some(0), Some(49)} && color == Default)
    || exists i: nat :: i < 16 && color == Basic(i) && Number(op) == Some(if i < 8 then 40 + i else 92 + i)
  }

  lemma ApplySets(op: Operation, r: Rendition)
    requires op.ExtendedColor? ==> IsExtended(op.raw)
    ensures forall color :: SetsForeground(op, color) ==> Apply(op, r).foreground == color
    ensures forall color :: SetsBackground(op, color) ==> Apply(op, r).background == color
    ensures (forall color :: !SetsForeground(op, color)) ==> Apply(op, r).foreground == r.foreground
    ensures (forall color :: !SetsBackground(op, color)) ==> Apply(op, r).background == r.background
  {
    if Number(op).Some? {
      var code := Number(op).value;
      var fore, back := Apply(op, r).foreground, Apply(op, r).background;
      assert 30 <= code <= 37 || 90 <= code <= 97 || code == 39 || code == 0 ==> SetsForeground(op, fore);
      assert 40 <= code <= 47 || 100 <= code <= 107 || code == 49 || code == 0 ==> SetsBackground(op, back);
    } else if op.ExtendedColor? {
      assert SetsForeground(op, Extended(op.args)) || SetsBackground(op, Extended(op.args));
    }
  }

  ghost predicate KeepForeground(ops: seq<Operation>) {
    forall i, color :: 0 <= i < |ops| ==> !SetsForeground(ops[i], color)
  }

  ghost predicate KeepBackground(ops: seq<Operation>) {
    forall i, color :: 0 <= i < |ops| ==> !SetsBackground(ops[i], color)
  }

  /** Colours are what the last operation that sets them sets. */
  lemma {:induction false} LastColourWins(before: seq<Operation>, op: Operation, after: seq<Operation>, color: Color, r: Rendition)
    requires forall o :: o in before + [op] + after && o.ExtendedColor? ==> IsExtended(o.raw)
    ensures SetsForeground(op, color) && KeepForeground(after) ==> ApplyAll(before + [op] + after, r).foreground == color
    ensures SetsBackground(op, color) && KeepBackground(after) ==> ApplyAll(before + [op] + after, r).background == color
    decreases before
  {
    var all := before + [op] + after;
    assert all != [] && ApplyAll(all, r) == ApplyAll(all[1..], Apply(all[0], r));
    if before == [] {
      assert op in all && all[1..] == after;
      ApplySets(op, r);
      forall o | o in after && o.ExtendedColor? ensures IsExtended(o.raw) { assert o in all; }
      ColoursKept(after, Apply(op, r));
    } else {
      assert all[1..] == before[1..] + [op] + after;
      LastColourWins(before[1..], op, after, color, Apply(all[0], r));
    }
  }

  lemma {:induction false} ColoursKept(ops: seq<Operation>, r: Rendition)
    requires forall o :: o in ops && o.ExtendedColor? ==> IsExtended(o.raw)
    ensures KeepForeground(ops) ==> ApplyAll(ops, r).foreground == r.foreground
    ensures KeepBackground(ops) ==> ApplyAll(ops, r).background == r.background
    decreases ops
  {
    if ops != [] {
      ApplySets(ops[0], r);
      ColoursKept(ops[1..], Apply(ops[0], r));
    }
  }

  /** A code that sets no colour is added to the attributes, and only a reset takes them away. */
  lemma AttributesExactly(raw: string, code: nat, r: Rendition)
    requires CodeOf(raw) == Some(code)
    ensures var op, attributes := Code(raw), Apply(Code(raw), r).attributes;
            if code == 0 then attributes == []
            else if exists color :: SetsForeground(op, color) || SetsBackground(op, color) then attributes == r.attributes
            else attributes == r.attributes + [code]
  {
    var op := Code(raw);
    ApplySets(op, r);
    assert 30 <= code <= 39 && code != 38 ==> SetsForeground(op, Apply(op, r).foreground);
    assert 90 <= code <= 97 ==> SetsForeground(op, Apply(op, r).foreground);
    assert 40 <= code <= 49 && code != 48 ==> SetsBackground(op, Apply(op, r).background);
    assert 100 <= code <= 107 ==> SetsBackground(op, Apply(op, r).background);
  }
}
