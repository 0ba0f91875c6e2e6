/**
 What the terminal gets, told from the data of the frames (src/terminal/session.ts, 269-281, 1290-1323 and
 1351-1424): frames arrive as payloads, and their data come out of the terminal. A separator line is left out if
 separators are not to be shown, and colours are rewritten in the light theme; nothing else is touched.
 */
module StreamTexts {
  import opened Prelude
  import opened RunVisual
  import opened RunSeparator
  import opened TerminalSession
  import opened Stream = TerminalStream
  import Pipeline = WritePipeline
  import Theme = TerminalTheme
  import Rewriting = RewrittenStream

  // ---------------------------------------------------------------------------
  // One frame
  // ---------------------------------------------------------------------------

  /** A separator as the backend builds it, and what is left of it without its line. */
  ghost predicate SeparatorWithin(data: string, kept: string) {
    exists atLineStart, visualSeq, exitCode, seconds, prompt :: '\n' !in seconds
      && data == BuildRunSeparator(atLineStart, visualSeq, exitCode, seconds, prompt)
      && kept == (if atLineStart then "" else "\r\n") + (if prompt.Some? then prompt.value else "")
  }

  /** What is to be seen of a frame: its data, but for the line of a separator that is not to be shown. */
  ghost predicate SeenAs(p: Payload, showRunSeparator: bool, text: string) {
    if p.source == InjectedSeparator && !showRunSeparator then SeparatorWithin(p.data, text) else text == p.data
  }

  lemma SeenIsShown(p: Payload, look: Look, text: string)
    requires SeenAs(p, look.showRunSeparator, text)
    ensures ShownData(p, look) == text
  {
    if p.source == InjectedSeparator && !look.showRunSeparator {
      var atLineStart, visualSeq, exitCode, seconds, prompt :| '\n' !in seconds
        && p.data == BuildRunSeparator(atLineStart, visualSeq, exitCode, seconds, prompt)
        && text == (if atLineStart then "" else "\r\n") + (if prompt.Some? then prompt.value else "");
      BackendSeparatorIsStripped(atLineStart, visualSeq, exitCode, seconds, prompt);
    }
  }

  function Coloured(text: string, theme: Theme.ThemeMode): string {
    if theme.Light? then Theme.NormalizeAnsi(text) else text
  }

  lemma SeenIsRendered(p: Payload, look: Look, text: string)
    requires SeenAs(p, look.showRunSeparator, text)
    ensures Rendered(p, look) == Coloured(text, look.theme)
  {
    SeenIsShown(p, look, text);
    assert Theme.NormalizeAnsi("") == "";
  }

  // ---------------------------------------------------------------------------
  // A run among others
  // ---------------------------------------------------------------------------

  /** The texts of the pieces: frames as they are to be seen, in the colours of the theme, and the session's own
      texts as they are. */
  ghost predicate AreTexts(pieces: seq<Piece>, look: Look, texts: seq<string>) {
    && |texts| == |pieces|
    && forall k :: 0 <= k < |pieces| ==> IsText(pieces[k], look, texts[k])
  }

  ghost predicate IsText(piece: Piece, look: Look, text: string) {
    match piece
    case Own(own) => text == own
    case Frame(p) => exists seen :: SeenAs(p, look.showRunSeparator, seen) && text == Coloured(seen, look.theme)
  }

  lemma TextIsPieceText(piece: Piece, look: Look, text: string)
    requires IsText(piece, look, text)
    ensures PieceText(piece, look) == text
  {
    if piece.Frame? {
      var seen :| SeenAs(piece.payload, look.showRunSeparator, seen) && text == Coloured(seen, look.theme);
      SeenIsRendered(piece.payload, look, seen);
    }
  }

  lemma {:induction false} TextsAreTextOf(pieces: seq<Piece>, look: Look, texts: seq<string>)
    requires AreTexts(pieces, look, texts)
    ensures TextOf(pieces, look) == Rewriting.Flat(texts)
    decreases pieces
  {
    if pieces != [] {
      assert IsText(pieces[0], look, texts[0]);
      TextIsPieceText(pieces[0], look, texts[0]);
      forall k | 0 <= k < |pieces[1..]| ensures IsText(pieces[1..][k], look, texts[1..][k]) {
        assert IsText(pieces[k + 1], look, texts[k + 1]);
      }
      TextsAreTextOf(pieces[1..], look, texts[1..]);
    }
  }

  /** The frames of a run arrive in any order, with duplicates, among the frames and gap timers of other
      runs, frames of no run and the session's own texts, while the panel is flushed, hidden, shown and
      resized; its own gap timer does not fire. Then what the terminal has received and will receive is
      the texts of pieces, in order, among which the run's frames are in order, once each. */
  lemma RunOutputReachesTerminalInOrder(frames: seq<Payload>, runId: string, s: State, events: seq<Stream.Event>, look: Look,
                                        texts: seq<string>)
    requires SessionValid(s.transactions) && runId !in s.transactions && RunArrives(frames, runId, TrafficOf(events))
    requires InOrder(s, events, look) && AreTexts(Pieces(s.transactions, events), look, texts)
    ensures var pieces, q := Pieces(s.transactions, events), Stream.Run(s, events, look).pipe;
            && WrittenFor(FramesIn(pieces), runId) == frames
            && Pipeline.Line(q) == Pipeline.Line(s.pipe) + Rewriting.Flat(texts)
            && (q.hidden == [] && q.buffered == [] ==> q.terminal == Pipeline.Line(s.pipe) + Rewriting.Flat(texts))
  {
    PiecesReachTerminalInOrder(frames, runId, s, events, look);
    TextsAreTextOf(Pieces(s.transactions, events), look, texts);
  }

  // ---------------------------------------------------------------------------
  // A run alone
  // ---------------------------------------------------------------------------

  /** Only the run's own frames, and nothing else is written. */
  ghost predicate Alone(frames: seq<Payload>, events: seq<Stream.Event>) {
    && (forall e :: e in TrafficOf(events) ==> e.Data? && e.payload in frames)
    && (forall e :: e in events && e.Pipework? ==> !e.step.Queue?)
  }

  lemma {:induction false} NoOwnPieces(txs: Transactions, events: seq<Stream.Event>)
    requires forall e :: e in events && e.Pipework? ==> !e.step.Queue?
    ensures Pieces(txs, events) == Frames(FramesIn(Pieces(txs, events)))
    decreases events
  {
    if events == [] {
      return;
    }
    assert events[0] in events;
    forall e | e in events[1..] ensures e in events {}
    match events[0]
    case Traffic(event) =>
      var o := SessionStep(txs, event);
      var later := Pieces(o.transactions, events[1..]);
      NoOwnPieces(o.transactions, events[1..]);
      FramesInConcat(Frames(o.written), later);
      FramesAreFrames(o.written);
      FramesConcat(o.written, FramesIn(later));
    case Pipework(step) =>
      NoOwnPieces(txs, events[1..]);
      assert [] + Pieces(txs, events[1..]) == Pieces(txs, events[1..]);
  }

  lemma {:induction false} FramesConcat(a: seq<Payload>, b: seq<Payload>)
    ensures Frames(a + b) == Frames(a) + Frames(b)
  {
    if a == [] {
      assert a + b == b;
    } else {
      assert (a + b)[1..] == a[1..] + b;
      FramesConcat(a[1..], b);
    }
  }

  lemma {:induction false} AllWrittenOwned(frames: seq<Payload>, runId: string, txs: Transactions, traffic: seq<SessionEvent>)
    requires IsRunOf(frames, runId) && SessionValid(txs)
    requires forall e :: e in traffic ==> e.Data? && e.payload in frames
    ensures forall p :: p in SessionPlay(txs, traffic).written ==> BelongsTo(p, runId)
    decreases traffic
  {
    if traffic != [] {
      assert traffic[0] in traffic;
      var p := traffic[0].payload;
      assert BelongsTo(p, runId);
      forall e | e in traffic[1..] ensures e in traffic {}
      StepOwned(Current(txs, runId), Arrives(p), runId);
      SessionStepProjects(txs, traffic[0], runId);
      AllWrittenOwned(frames, runId, SessionStep(txs, traffic[0]).transactions, traffic[1..]);
    }
  }

  /** A lone run: everything of it arrives, the pipeline is empty before, and nothing overtakes. */
  ghost predicate LoneRun(frames: seq<Payload>, runId: string, pipe: Pipe, events: seq<Stream.Event>, look: Look) {
    && RunArrives(frames, runId, TrafficOf(events)) && Alone(frames, events)
    && Pipeline.Line(pipe) == "" && InOrder(State(map[], pipe), events, look)
  }

  lemma LoneRunIsItsFrames(frames: seq<Payload>, runId: string, pipe: Pipe, events: seq<Stream.Event>, look: Look)
    requires LoneRun(frames, runId, pipe, events, look)
    ensures Pipeline.Line(Stream.Run(State(map[], pipe), events, look).pipe) == TextOf(Frames(frames), look)
  {
    var pieces := Pieces(map[], events);
    PiecesReachTerminalInOrder(frames, runId, State(map[], pipe), events, look);
    PiecesHoldFrames(map[], events);
    AllWrittenOwned(frames, runId, map[], TrafficOf(events));
    WrittenForUniform(FramesIn(pieces), runId, true);
    NoOwnPieces(map[], events);
    assert "" + TextOf(pieces, look) == TextOf(pieces, look);
  }

  ghost predicate AllSeenAs(frames: seq<Payload>, showRunSeparator: bool, texts: seq<string>) {
    |texts| == |frames| && forall k :: 0 <= k < |frames| ==> SeenAs(frames[k], showRunSeparator, texts[k])
  }

  lemma SeenTail(frames: seq<Payload>, showRunSeparator: bool, texts: seq<string>)
    requires frames != [] && AllSeenAs(frames, showRunSeparator, texts)
    ensures SeenAs(frames[0], showRunSeparator, texts[0]) && AllSeenAs(frames[1..], showRunSeparator, texts[1..])
  {
    forall k | 0 <= k < |frames[1..]| ensures SeenAs(frames[1..][k], showRunSeparator, texts[1..][k]) {
      assert SeenAs(frames[k + 1], showRunSeparator, texts[k + 1]);
    }
  }

  lemma {:induction false} FramesTexts(frames: seq<Payload>, look: Look, texts: seq<string>)
    requires AllSeenAs(frames, look.showRunSeparator, texts)
    ensures TextOf(Frames(frames), look)
         == if look.theme.Light? then Rewriting.Rewritten(texts) else Rewriting.Flat(texts)
    decreases frames
  {
    if frames != [] {
      SeenTail(frames, look.showRunSeparator, texts);
      SeenIsRendered(frames[0], look, texts[0]);
      FramesTexts(frames[1..], look, texts[1..]);
      assert Frames(frames)[1..] == Frames(frames[1..]);
    }
  }

  /** With nothing else going on, the terminal gets exactly what is to be seen of the run's frames, in order: as it is
      in the dark theme, and rewritten frame by frame in the light one. */
  lemma LoneRunIsTheStream(frames: seq<Payload>, runId: string, pipe: Pipe, events: seq<Stream.Event>, look: Look, texts: seq<string>)
    requires LoneRun(frames, runId, pipe, events, look) && AllSeenAs(frames, look.showRunSeparator, texts)
    ensures Pipeline.Line(Stream.Run(State(map[], pipe), events, look).pipe)
         == if look.theme.Light? then Rewriting.Rewritten(texts) else Rewriting.Flat(texts)
  {
    LoneRunIsItsFrames(frames, runId, pipe, events, look);
    FramesTexts(frames, look, texts);
  }

  /** In the light theme, the terminal then shows what is to be seen of the frames, lightened, if no sequence that
      would have to be rewritten is spread over frames. */
  lemma LoneRunIsShownLightened(frames: seq<Payload>, runId: string, pipe: Pipe, events: seq<Stream.Event>, look: Look,
                                texts: seq<string>, r: Theme.Rendition)
    requires LoneRun(frames, runId, pipe, events, look) && AllSeenAs(frames, look.showRunSeparator, texts)
    requires look.theme.Light? && Rewriting.AllHarmless(texts)
    ensures Theme.Render(Pipeline.Line(Stream.Run(State(map[], pipe), events, look).pipe), Theme.Lighten(r))
         == Theme.LightenCells(Theme.Render(Rewriting.Flat(texts), r))
  {
    LoneRunIsTheStream(frames, runId, pipe, events, look, texts);
    Rewriting.RewrittenStreamRenders(texts, r);
  }

  function DataOf(frames: seq<Payload>): string {
    if frames == [] then "" else frames[0].data + DataOf(frames[1..])
  }

  function Datas(frames: seq<Payload>): (texts: seq<string>)
    ensures |texts| == |frames| && forall k :: 0 <= k < |frames| ==> texts[k] == frames[k].data
  {
    seq(|frames|, k requires 0 <= k < |frames| => frames[k].data)
  }

  lemma {:induction false} FlatDatas(frames: seq<Payload>)
    ensures Rewriting.Flat(Datas(frames)) == DataOf(frames)
  {
    if frames != [] {
      FlatDatas(frames[1..]);
      assert Datas(frames)[1..] == Datas(frames[1..]);
    }
  }

  /** In the dark theme, with separators shown or none among the frames, the terminal gets the frames' data, and
      nothing else. */
  lemma LoneRunIsItsData(frames: seq<Payload>, runId: string, pipe: Pipe, events: seq<Stream.Event>, look: Look)
    requires LoneRun(frames, runId, pipe, events, look) && look.theme.Dark?
    requires look.showRunSeparator || forall p :: p in frames ==> p.source != InjectedSeparator
    ensures Pipeline.Line(Stream.Run(State(map[], pipe), events, look).pipe) == DataOf(frames)
  {
    forall k | 0 <= k < |frames| ensures SeenAs(frames[k], look.showRunSeparator, Datas(frames)[k]) {
      assert frames[k] in frames;
    }
    LoneRunIsTheStream(frames, runId, pipe, events, look, Datas(frames));
    FlatDatas(frames);
  }

  lemma SeenWithoutLine(frames: seq<Payload>, runId: string, kept: string)
    requires IsRunOf(frames, runId) && EndsInSeparator(frames) && SeparatorWithin(frames[|frames| - 1].data, kept)
    ensures AllSeenAs(frames, false, Datas(frames[..|frames| - 1]) + [kept])
  {
    var n := |frames| - 1;
    var texts := Datas(frames[..n]) + [kept];
    forall k | 0 <= k <= n ensures SeenAs(frames[k], false, texts[k]) {
      assert k < n ==> frames[k].source != InjectedSeparator && texts[k] == frames[k].data;
    }
  }

  lemma HiddenSeparatorLeaves(frames: seq<Payload>, runId: string, pipe: Pipe, events: seq<Stream.Event>, look: Look, kept: string)
    requires LoneRun(frames, runId, pipe, events, look) && look.theme.Dark? && !look.showRunSeparator
    requires EndsInSeparator(frames) && SeparatorWithin(frames[|frames| - 1].data, kept)
    ensures Pipeline.Line(Stream.Run(State(map[], pipe), events, look).pipe) == DataOf(frames[..|frames| - 1]) + kept
  {
    var body := frames[..|frames| - 1];
    SeenWithoutLine(frames, runId, kept);
    LoneRunIsTheStream(frames, runId, pipe, events, look, Datas(body) + [kept]);
    FlatDatas(body);
    FlatSnoc(Datas(body), kept);
  }

  /** With separators hidden, of the separator that ends the run only the line break in front of its line and the prompt
      behind it are left; all other data are unchanged. */
  lemma HiddenSeparatorLeavesPrompt(frames: seq<Payload>, runId: string, pipe: Pipe, events: seq<Stream.Event>, look: Look,
                                    atLineStart: bool, visualSeq: nat, exitCode: Option<int>, seconds: string,
                                    prompt: Option<string>)
    requires LoneRun(frames, runId, pipe, events, look) && look.theme.Dark? && !look.showRunSeparator
    requires EndsInSeparator(frames) && '\n' !in seconds
    requires frames[|frames| - 1].data == BuildRunSeparator(atLineStart, visualSeq, exitCode, seconds, prompt)
    ensures Pipeline.Line(Stream.Run(State(map[], pipe), events, look).pipe)
         == DataOf(frames[..|frames| - 1])
            + ((if atLineStart then "" else "\r\n") + (if prompt.Some? then prompt.value else ""))
  {
    var kept := (if atLineStart then "" else "\r\n") + (if prompt.Some? then prompt.value else "");
    assert SeparatorWithin(frames[|frames| - 1].data, kept);
    HiddenSeparatorLeaves(frames, runId, pipe, events, look, kept);
  }

  lemma {:induction false} FlatSnoc(texts: seq<string>, last: string)
    ensures Rewriting.Flat(texts + [last]) == Rewriting.Flat(texts) + last
  {
    if texts == [] {
      assert [] + [last] == [last] && [last][1..] == [];
    } else {
      assert (texts + [last])[1..] == texts[1..] + [last];
      FlatSnoc(texts[1..], last);
    }
  }
}
