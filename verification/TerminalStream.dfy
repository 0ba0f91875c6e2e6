/**
 From the arrival of frames to the terminal (src/terminal/session.ts): the resequencing of runs and the
 write pipeline as one machine. Frames and gap timers come in on one side; flushes, callbacks, resizes
 and changes of visibility happen on the other; in between, the session writes text of its own.
 */
module TerminalStream {
  import opened Prelude
  import opened RunVisual
  import opened TerminalSession
  import Pipeline = WritePipeline

  datatype Event = Traffic(event: SessionEvent) | Pipework(step: Pipeline.Step<char>)

  datatype State = State(transactions: Transactions, pipe: Pipe)

  function Take(s: State, e: Event, look: Look): State {
    match e
    case Traffic(event) =>
      var o := SessionStep(s.transactions, event);
      State(o.transactions, WriteAll(s.pipe, o.written, look))
    case Pipework(step) => s.(pipe := Pipeline.Take(s.pipe, step))
  }

  function Run(s: State, events: seq<Event>, look: Look): State
    decreases events
  {
    if events == [] then s else Run(Take(s, events[0], look), events[1..], look)
  }

  function TrafficOf(events: seq<Event>): seq<SessionEvent> {
    if events == [] then []
    else (if events[0].Traffic? then [events[0].event] else []) + TrafficOf(events[1..])
  }

  // ---------------------------------------------------------------------------
  // The two halves
  // ---------------------------------------------------------------------------

  function Queueing(written: seq<Payload>, look: Look): seq<Pipeline.Step<char>> {
    if written == [] then [] else [Pipeline.Queue(Rendered(written[0], look))] + Queueing(written[1..], look)
  }

  /** What the pipeline sees. */
  function PipeSteps(txs: Transactions, events: seq<Event>, look: Look): seq<Pipeline.Step<char>>
    decreases events
  {
    if events == [] then []
    else
      match events[0]
      case Traffic(event) =>
        var o := SessionStep(txs, event);
        Queueing(o.written, look) + PipeSteps(o.transactions, events[1..], look)
      case Pipework(step) => [step] + PipeSteps(txs, events[1..], look)
  }

  lemma {:induction false} WriteAllIsQueueing(p: Pipe, written: seq<Payload>, look: Look)
    ensures WriteAll(p, written, look) == Pipeline.Play(p, Queueing(written, look))
    decreases written
  {
    if written != [] {
      var first := Pipeline.Queue(Rendered(written[0], look));
      assert Queueing(written, look)[1..] == Queueing(written[1..], look);
      WriteAllIsQueueing(Pipeline.Take(p, first), written[1..], look);
    }
  }

  /** The pipeline runs as it would alone, and the transactions too. */
  lemma {:induction false} RunSplits(s: State, events: seq<Event>, look: Look)
    ensures Run(s, events, look).pipe == Pipeline.Play(s.pipe, PipeSteps(s.transactions, events, look))
    ensures Run(s, events, look).transactions == SessionPlay(s.transactions, TrafficOf(events)).transactions
    decreases events
  {
    if events == [] {
      return;
    }
    var rest := TrafficOf(events[1..]);
    RunSplits(Take(s, events[0], look), events[1..], look);
    match events[0]
    case Traffic(event) =>
      var o := SessionStep(s.transactions, event);
      WriteAllIsQueueing(s.pipe, o.written, look);
      Pipeline.PlayConcat(s.pipe, Queueing(o.written, look), PipeSteps(o.transactions, events[1..], look));
      assert ([event] + rest)[1..] == rest;
    case Pipework(step) =>
      assert [] + rest == rest;
      var steps := PipeSteps(s.transactions, events[1..], look);
      assert ([step] + steps)[1..] == steps;
  }

  // ---------------------------------------------------------------------------
  // What is queued
  // ---------------------------------------------------------------------------

  datatype Piece = Frame(payload: Payload) | Own(text: string)

  function Frames(written: seq<Payload>): seq<Piece> {
    if written == [] then [] else [Frame(written[0])] + Frames(written[1..])
  }

  /** The frames in the order in which they are written, and the session's own texts between them. */
  function Pieces(txs: Transactions, events: seq<Event>): seq<Piece>
    decreases events
  {
    if events == [] then []
    else
      match events[0]
      case Traffic(event) =>
        var o := SessionStep(txs, event);
        Frames(o.written) + Pieces(o.transactions, events[1..])
      case Pipework(step) => (if step.Queue? then [Own(step.text)] else []) + Pieces(txs, events[1..])
  }

  function FramesIn(pieces: seq<Piece>): seq<Payload> {
    if pieces == [] then []
    else (if pieces[0].Frame? then [pieces[0].payload] else []) + FramesIn(pieces[1..])
  }

  function PieceText(piece: Piece, look: Look): string {
    match piece case Frame(p) => Rendered(p, look) case Own(text) => text
  }

  function TextOf(pieces: seq<Piece>, look: Look): string {
    if pieces == [] then "" else PieceText(pieces[0], look) + TextOf(pieces[1..], look)
  }

  lemma {:induction false} TextOfConcat(a: seq<Piece>, b: seq<Piece>, look: Look)
    ensures TextOf(a + b, look) == TextOf(a, look) + TextOf(b, look)
  {
    if a == [] {
      assert a + b == b;
    } else {
      assert (a + b)[1..] == a[1..] + b;
      TextOfConcat(a[1..], b, look);
      ConcatAssociates(PieceText(a[0], look), TextOf(a[1..], look), TextOf(b, look));
    }
  }

  lemma {:induction false} FramesInConcat(a: seq<Piece>, b: seq<Piece>)
    ensures FramesIn(a + b) == FramesIn(a) + FramesIn(b)
  {
    if a == [] {
      assert a + b == b;
    } else {
      assert (a + b)[1..] == a[1..] + b;
      FramesInConcat(a[1..], b);
      ConcatAssociates(if a[0].Frame? then [a[0].payload] else [], FramesIn(a[1..]), FramesIn(b));
    }
  }

  lemma {:induction false} FramesAreFrames(written: seq<Payload>)
    ensures FramesIn(Frames(written)) == written
  {
    if written != [] {
      var first, rest := written[0], written[1..];
      assert written == [first] + rest;
      FramesAreFrames(rest);
      FramesInCons(Frame(first), Frames(rest));
    }
  }

  lemma FramesInCons(piece: Piece, pieces: seq<Piece>)
    ensures FramesIn([piece] + pieces) == (if piece.Frame? then [piece.payload] else []) + FramesIn(pieces)
  {
    assert ([piece] + pieces)[1..] == pieces;
  }

  /** The frames among the pieces are the ones the resequencing writes. */
  lemma {:induction false} PiecesHoldFrames(txs: Transactions, events: seq<Event>)
    ensures FramesIn(Pieces(txs, events)) == SessionPlay(txs, TrafficOf(events)).written
    decreases events
  {
    if events == [] {
      return;
    }
    var rest := TrafficOf(events[1..]);
    match events[0]
    case Traffic(event) =>
      var o := SessionStep(txs, event);
      PiecesHoldFrames(o.transactions, events[1..]);
      FramesInConcat(Frames(o.written), Pieces(o.transactions, events[1..]));
      FramesAreFrames(o.written);
      assert ([event] + rest)[1..] == rest;
    case Pipework(step) =>
      PiecesHoldFrames(txs, events[1..]);
      var own := if step.Queue? then [Own(step.text)] else [];
      FramesInConcat(own, Pieces(txs, events[1..]));
      assert own[if step.Queue? then 1 else 0..] == [];
      assert FramesIn(own) == [];
      assert [] + rest == rest;
  }

  lemma {:induction false} QueuedConcat(a: seq<Pipeline.Step<char>>, b: seq<Pipeline.Step<char>>)
    ensures Pipeline.Queued(a + b) == Pipeline.Queued(a) + Pipeline.Queued(b)
  {
    if a == [] {
      assert a + b == b;
    } else {
      assert (a + b)[1..] == a[1..] + b;
      QueuedConcat(a[1..], b);
      ConcatAssociates(if a[0].Queue? then a[0].text else [], Pipeline.Queued(a[1..]), Pipeline.Queued(b));
    }
  }

  lemma {:induction false} QueueingQueues(written: seq<Payload>, look: Look)
    ensures Pipeline.Queued(Queueing(written, look)) == TextOf(Frames(written), look)
  {
    if written != [] {
      QueueingQueues(written[1..], look);
      assert Queueing(written, look)[1..] == Queueing(written[1..], look);
      assert Frames(written)[1..] == Frames(written[1..]);
    }
  }

  /** The text of the pieces is what is queued. */
  lemma {:induction false} PiecesAreQueued(txs: Transactions, events: seq<Event>, look: Look)
    ensures Pipeline.Queued(PipeSteps(txs, events, look)) == TextOf(Pieces(txs, events), look)
    decreases events
  {
    if events == [] {
      return;
    }
    match events[0]
    case Traffic(event) =>
      var o := SessionStep(txs, event);
      var later, pieces := PipeSteps(o.transactions, events[1..], look), Pieces(o.transactions, events[1..]);
      PiecesAreQueued(o.transactions, events[1..], look);
      QueuedConcat(Queueing(o.written, look), later);
      QueueingQueues(o.written, look);
      TextOfConcat(Frames(o.written), pieces, look);
    case Pipework(step) =>
      var later, pieces := PipeSteps(txs, events[1..], look), Pieces(txs, events[1..]);
      PiecesAreQueued(txs, events[1..], look);
      assert ([step] + later)[1..] == later;
      if step.Queue? {
        assert ([Own(step.text)] + pieces)[1..] == pieces;
      } else {
        assert [] + pieces == pieces;
      }
  }

  // ---------------------------------------------------------------------------
  // What the terminal gets
  // ---------------------------------------------------------------------------

  /** No non-empty text is queued while the panel is hidden over a non-empty visible buffer. */
  predicate InOrder(s: State, events: seq<Event>, look: Look) {
    Pipeline.NothingOvertakes(s.pipe, PipeSteps(s.transactions, events, look))
  }

  /** Whatever happens, the pieces' text is neither lost nor duplicated. */
  lemma StreamIsConserved(s: State, events: seq<Event>, look: Look)
    ensures var q := Run(s, events, look).pipe;
            && multiset(Pipeline.Line(q)) == multiset(Pipeline.Line(s.pipe)) + multiset(TextOf(Pieces(s.transactions, events), look))
            && s.pipe.terminal <= q.terminal
  {
    RunSplits(s, events, look);
    PiecesAreQueued(s.transactions, events, look);
    Pipeline.TextIsConserved(s.pipe, PipeSteps(s.transactions, events, look));
  }

  /** The pieces reach the terminal in order, if nothing overtakes. */
  lemma StreamIsInOrder(s: State, events: seq<Event>, look: Look)
    requires InOrder(s, events, look)
    ensures Pipeline.Line(Run(s, events, look).pipe)
         == Pipeline.Line(s.pipe) + TextOf(Pieces(s.transactions, events), look)
  {
    RunSplits(s, events, look);
    PiecesAreQueued(s.transactions, events, look);
    Pipeline.OrderIsKept(s.pipe, PipeSteps(s.transactions, events, look));
  }

  /** And only then, where no two characters are the same. */
  lemma StreamIsInOrderExactly(s: State, events: seq<Event>, look: Look)
    requires Distinct(Pipeline.Line(s.pipe) + TextOf(Pieces(s.transactions, events), look))
    ensures Pipeline.Line(Run(s, events, look).pipe)
            == Pipeline.Line(s.pipe) + TextOf(Pieces(s.transactions, events), look)
       <==> InOrder(s, events, look)
  {
    RunSplits(s, events, look);
    PiecesAreQueued(s.transactions, events, look);
    Pipeline.OrderIsKeptExactly(s.pipe, PipeSteps(s.transactions, events, look));
  }

  /** Everything of a run arrives, and nothing of it once its separator has completed it. */
  ghost predicate RunArrives(frames: seq<Payload>, runId: string, traffic: seq<SessionEvent>) {
    var mine := EventsFor(traffic, runId);
    && IsRunOf(frames, runId) && OnlyArrivals(mine, frames) && AllArrive(frames, mine)
    && (EndsInSeparator(frames) ==> mine != [] && !AllArrive(frames, mine[..|mine| - 1]))
  }

  /** Then what the terminal has received and will receive is the text of pieces among which the run's frames are
      in order, once each. */
  lemma PiecesReachTerminalInOrder(frames: seq<Payload>, runId: string, s: State, events: seq<Event>, look: Look)
    requires SessionValid(s.transactions) && runId !in s.transactions && RunArrives(frames, runId, TrafficOf(events))
    requires InOrder(s, events, look)
    ensures var pieces, q := Pieces(s.transactions, events), Run(s, events, look).pipe;
            && WrittenFor(FramesIn(pieces), runId) == frames
            && Pipeline.Line(q) == Pipeline.Line(s.pipe) + TextOf(pieces, look)
            && (q.hidden == [] && q.buffered == [] ==> q.terminal == Pipeline.Line(s.pipe) + TextOf(pieces, look))
  {
    StreamIsInOrder(s, events, look);
    PiecesHoldFrames(s.transactions, events);
    EachRunIsWrittenInOrder(frames, runId, s.transactions, TrafficOf(events));
    var q := Run(s, events, look).pipe;
    assert q.terminal + [] + [] == q.terminal;
  }
}
