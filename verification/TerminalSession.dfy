/**
 The terminal session object (src/terminal/session.ts): the resequencing of run frames feeding the
 write pipeline, with the fields it updates in place. Timers, animation frames and the terminal's
 write callbacks are methods that the environment calls while they are armed or outstanding.
 */
module TerminalSession {
  import opened Prelude
  import opened RunVisual
  import opened RunSeparator
  import Pipeline = WritePipeline
  import Theme = TerminalTheme

  datatype Look = Look(theme: Theme.ThemeMode, showRunSeparator: bool)

  /** The data of a payload, without a separator line that is not to be shown. */
  function ShownData(p: Payload, look: Look): string {
    if p.source == InjectedSeparator && !look.showRunSeparator then StripSeparator(p.data) else p.data
  }

  /** The text a payload adds to the terminal. */
  function Rendered(p: Payload, look: Look): string {
    Theme.NormalizeForTheme(ShownData(p, look), look.theme)
  }

  type Pipe = Pipeline.Pipe<char>

  function WriteAll(p: Pipe, written: seq<Payload>, look: Look): Pipe
    decreases written
  {
    if written == [] then p
    else WriteAll(Pipeline.QueueText(p, Rendered(written[0], look)), written[1..], look)
  }

  lemma {:induction false} WriteAllSnoc(p: Pipe, written: seq<Payload>, last: Payload, look: Look)
    ensures WriteAll(p, written + [last], look)
         == Pipeline.QueueText(WriteAll(p, written, look), Rendered(last, look))
    decreases written
  {
    if written == [] {
      assert [last][1..] == [];
    } else {
      assert (written + [last])[1..] == written[1..] + [last];
      WriteAllSnoc(Pipeline.QueueText(p, Rendered(written[0], look)), written[1..], last, look);
    }
  }

  lemma KeepOver(txs: Transactions, runId: string, t: Transaction, state: Option<Transaction>)
    ensures Keep(txs[runId := t], runId, state) == Keep(txs, runId, state)
  {}

  lemma WithoutKey(txs: Transactions, runId: string, t: Transaction)
    ensures txs[runId := t] - {runId} == txs - {runId}
  {}

  lemma OverKey(txs: Transactions, runId: string, t: Transaction, u: Transaction)
    ensures txs[runId := t][runId := u] == txs[runId := u]
  {}

  function Joined(written: seq<Payload>, rest: Outcome): Outcome {
    Outcome(written + rest.written, rest.state)
  }

  lemma DrainTurn(before: Transaction, after: Transaction, written: seq<Payload>)
    requires before.nextSeq in before.pending
    requires after == before.(nextSeq := before.nextSeq + 1, pending := before.pending - {before.nextSeq})
    ensures |after.pending| < |before.pending|
    ensures var p := before.pending[before.nextSeq];
            Joined(written, Drain(before)) ==
              if p.source == InjectedSeparator then Outcome(written + [p], None)
              else Joined(written + [p], Drain(after))
  {
    assert after.pending.Keys == before.pending.Keys - {before.nextSeq};
    var p := before.pending[before.nextSeq];
    assert written + ([p] + Drain(after).written) == written + [p] + Drain(after).written;
  }

  class RunVisualTransaction {
    var nextSeq: nat
    var pending: map<nat, Payload>
    var gapTimerArmed: bool

    function View(): Transaction
      reads this
    {
      Transaction(nextSeq, pending, gapTimerArmed)
    }

    constructor ()
      ensures View() == FRESH
    {
      nextSeq, pending, gapTimerArmed := 1, map[], false;
    }
  }

  class TerminalSession {
    const look: Look
    var runVisualTransactions: map<string, RunVisualTransaction>

    var hasTerminal: bool
    var visible: bool
    var isShellWindowResizing: bool
    var bufferedTerminalWrite: string
    var hiddenTerminalWriteBacklog: string
    var isTerminalWriteInFlight: bool
    var terminalText: string
    var outstandingWrites: nat
    var writeFrameArmed: bool
    var writeTimeoutArmed: bool
    var pendingTerminalWriteCallbacks: seq<nat>
    var ranTerminalWriteCallbacks: seq<nat>

    /** Different runs have different transaction objects. */
    ghost predicate Valid()
      reads this
    {
      forall a, b :: a in runVisualTransactions && b in runVisualTransactions && a != b ==>
        runVisualTransactions[a] != runVisualTransactions[b]
    }

    ghost function Transactions(): Transactions
      reads this, runVisualTransactions.Values
    {
      map runId | runId in runVisualTransactions :: runVisualTransactions[runId].View()
    }

    function PipeView(): Pipe
      reads this
    {
      Pipeline.Pipe(hasTerminal, visible, isShellWindowResizing, bufferedTerminalWrite,
        hiddenTerminalWriteBacklog, isTerminalWriteInFlight, terminalText, outstandingWrites,
        writeFrameArmed, writeTimeoutArmed, pendingTerminalWriteCallbacks, ranTerminalWriteCallbacks)
    }

    constructor (look: Look)
      ensures Valid() && Transactions() == map[] && this.look == look
      ensures PipeView() == Pipeline.Pipe(false, false, false, "", "", false, "", 0, false, false, [], [])
    {
      this.look := look;
      runVisualTransactions := map[];
      hasTerminal, visible, isShellWindowResizing := false, false, false;
      bufferedTerminalWrite, hiddenTerminalWriteBacklog, terminalText := "", "", "";
      isTerminalWriteInFlight, outstandingWrites := false, 0;
      writeFrameArmed, writeTimeoutArmed := false, false;
      pendingTerminalWriteCallbacks, ranTerminalWriteCallbacks := [], [];
    }

    // -------------------------------------------------------------------------
    // Write pipeline
    // -------------------------------------------------------------------------

    method FlushPendingTerminalWriteCallbacks()
      modifies this
      ensures unchanged(`runVisualTransactions)
      ensures PipeView() == Pipeline.RunCallbacks(old(PipeView()))
    {
      if pendingTerminalWriteCallbacks == [] {
        assert ranTerminalWriteCallbacks + [] == ranTerminalWriteCallbacks;
        return;
      }
      var cbs := pendingTerminalWriteCallbacks;
      pendingTerminalWriteCallbacks := [];
      ranTerminalWriteCallbacks := ranTerminalWriteCallbacks + cbs;
    }

    method FlushTerminalWriteBufferNow(afterWrite: Option<nat>)
      modifies this
      ensures unchanged(`runVisualTransactions)
      ensures PipeView() == Pipeline.FlushNow(old(PipeView()), afterWrite)
    {
      if afterWrite.Some? {
        pendingTerminalWriteCallbacks := pendingTerminalWriteCallbacks + [afterWrite.value];
      } else {
        assert pendingTerminalWriteCallbacks + [] == pendingTerminalWriteCallbacks;
      }
      writeFrameArmed := false;
      writeTimeoutArmed := false;
      DeliverTerminalWrites();
    }

    /** The part of a flush behind the timers. */
    method DeliverTerminalWrites()
      modifies this
      ensures unchanged(`runVisualTransactions)
      ensures PipeView() == Pipeline.Deliver(old(PipeView()))
    {
      if !hasTerminal {
        if !isTerminalWriteInFlight {
          FlushPendingTerminalWriteCallbacks();
        }
        return;
      }
      if isShellWindowResizing && visible {
        return;
      }
      if !visible {
        if bufferedTerminalWrite != "" {
          hiddenTerminalWriteBacklog := hiddenTerminalWriteBacklog + bufferedTerminalWrite;
          bufferedTerminalWrite := "";
        }
        assert old(hiddenTerminalWriteBacklog) + "" == old(hiddenTerminalWriteBacklog);
        return;
      }
      if isTerminalWriteInFlight {
        return;
      }
      if hiddenTerminalWriteBacklog != "" {
        bufferedTerminalWrite := hiddenTerminalWriteBacklog + bufferedTerminalWrite;
        hiddenTerminalWriteBacklog := "";
      }
      assert bufferedTerminalWrite == old(hiddenTerminalWriteBacklog) + old(bufferedTerminalWrite);
      if bufferedTerminalWrite == "" {
        FlushPendingTerminalWriteCallbacks();
        return;
      }
      ConcatAssociates(terminalText, old(hiddenTerminalWriteBacklog), old(bufferedTerminalWrite));
      var chunk := bufferedTerminalWrite;
      bufferedTerminalWrite := "";
      isTerminalWriteInFlight := true;
      terminalText := terminalText + chunk;
      outstandingWrites := outstandingWrites + 1;
    }

    /** The terminal's callback for a write. */
    method OnTerminalWriteDone()
      requires outstandingWrites > 0
      modifies this
      ensures unchanged(`runVisualTransactions)
      ensures PipeView() == Pipeline.Take(old(PipeView()), Pipeline.WriteDone)
    {
      outstandingWrites := outstandingWrites - 1;
      isTerminalWriteInFlight := false;
      if bufferedTerminalWrite != "" {
        FlushTerminalWriteBufferNow(None);
        return;
      }
      FlushPendingTerminalWriteCallbacks();
    }

    method ScheduleTerminalWriteFlush()
      modifies this
      ensures unchanged(`runVisualTransactions)
      ensures PipeView() == Pipeline.Schedule(old(PipeView()))
    {
      if isShellWindowResizing && visible {
        return;
      }
      if !writeFrameArmed {
        writeFrameArmed := true;
      }
      if writeTimeoutArmed {
        return;
      }
      writeTimeoutArmed := true;
    }

    method OnWriteFrame()
      requires writeFrameArmed
      modifies this
      ensures unchanged(`runVisualTransactions)
      ensures PipeView() == Pipeline.Take(old(PipeView()), Pipeline.FrameFires)
    {
      writeFrameArmed := false;
      FlushTerminalWriteBufferNow(None);
    }

    method OnWriteTimeout()
      requires writeTimeoutArmed
      modifies this
      ensures unchanged(`runVisualTransactions)
      ensures PipeView() == Pipeline.Take(old(PipeView()), Pipeline.TimeoutFires)
    {
      writeTimeoutArmed := false;
      FlushTerminalWriteBufferNow(None);
    }

    method QueueTerminalWrite(value: string)
      modifies this
      ensures unchanged(`runVisualTransactions)
      ensures PipeView()
           == Pipeline.Take(old(PipeView()), Pipeline.Queue(Theme.NormalizeForTheme(value, look.theme)))
    {
      if value == "" {
        return;
      }
      var normalizedValue := Theme.NormalizeForTheme(value, look.theme);
      Theme.NormalizeAnsiHead(value);
      if !visible {
        hiddenTerminalWriteBacklog := hiddenTerminalWriteBacklog + normalizedValue;
        return;
      }
      bufferedTerminalWrite := bufferedTerminalWrite + normalizedValue;
      ScheduleTerminalWriteFlush();
    }

    method SetVisible(nextVisible: bool)
      modifies this
      ensures unchanged(`runVisualTransactions)
      ensures PipeView() == Pipeline.Take(old(PipeView()), Pipeline.SetVisible(nextVisible))
    {
      visible := nextVisible;
    }

    method HandleBecomeVisible()
      modifies this
      ensures unchanged(`runVisualTransactions)
      ensures PipeView() == Pipeline.Take(old(PipeView()), Pipeline.BecomeVisible)
    {
      if hiddenTerminalWriteBacklog != "" {
        FlushTerminalWriteBufferNow(None);
      }
    }

    method HandleShellWindowResizeStart()
      modifies this
      ensures unchanged(`runVisualTransactions)
      ensures PipeView() == Pipeline.Take(old(PipeView()), Pipeline.ResizeStart)
    {
      isShellWindowResizing := true;
      writeFrameArmed := false;
      writeTimeoutArmed := false;
    }

    method HandleShellWindowResizeSettled()
      modifies this
      ensures unchanged(`runVisualTransactions)
      ensures PipeView() == Pipeline.Take(old(PipeView()), Pipeline.ResizeSettled)
    {
      isShellWindowResizing := false;
      if !visible {
        return;
      }
      if bufferedTerminalWrite != "" || |pendingTerminalWriteCallbacks| > 0 {
        ScheduleTerminalWriteFlush();
      }
    }

    // -------------------------------------------------------------------------
    // Run frames
    // -------------------------------------------------------------------------

    method WriteTerminalDataPayload(payload: Payload)
      modifies this
      ensures unchanged(`runVisualTransactions)
      ensures PipeView() == WriteAll(old(PipeView()), [payload], look)
    {
      var data := if payload.source == InjectedSeparator && !look.showRunSeparator
                  then StripSeparator(payload.data) else payload.data;
      assert data == ShownData(payload, look);
      assert [payload][1..] == [];
      if data == "" {
        return;
      }
      QueueTerminalWrite(data);
    }

    method GetRunVisualTransaction(runId: string) returns (transaction: RunVisualTransaction)
      requires Valid()
      modifies this`runVisualTransactions
      ensures Valid() && runId in runVisualTransactions && runVisualTransactions[runId] == transaction
      ensures runVisualTransactions == old(runVisualTransactions)[runId := transaction]
      ensures runId in old(runVisualTransactions) ==> transaction == old(runVisualTransactions)[runId]
      ensures runId !in old(runVisualTransactions) ==> fresh(transaction)
      ensures transaction.View() == Current(old(Transactions()), runId)
      ensures PipeView() == old(PipeView())
    {
      if runId in runVisualTransactions {
        transaction := runVisualTransactions[runId];
        assert runVisualTransactions[runId := transaction] == runVisualTransactions;
        return;
      }
      transaction := new RunVisualTransaction();
      runVisualTransactions := runVisualTransactions[runId := transaction];
    }

    method ClearRunVisualTransaction(runId: string)
      requires Valid()
      modifies this`runVisualTransactions
      ensures Valid()
      ensures runVisualTransactions == old(runVisualTransactions) - {runId}
      ensures Transactions() == old(Transactions()) - {runId}
      ensures PipeView() == old(PipeView())
    {
      if runId !in runVisualTransactions {
        return;
      }
      runVisualTransactions := runVisualTransactions - {runId};
    }

    /** One turn of the drain loop: the frame whose turn it is leaves `pending` and is written. */
    method WriteNextFrame(runId: string, transaction: RunVisualTransaction) returns (payload: Payload)
      requires Valid() && runId in runVisualTransactions && runVisualTransactions[runId] == transaction
      requires transaction.nextSeq in transaction.pending
      modifies this, transaction
      ensures unchanged(`runVisualTransactions)
      ensures payload == old(transaction.pending)[old(transaction.nextSeq)]
      ensures transaction.nextSeq == old(transaction.nextSeq) + 1
      ensures transaction.pending == old(transaction.pending) - {old(transaction.nextSeq)}
      ensures transaction.gapTimerArmed == old(transaction.gapTimerArmed)
      ensures Transactions() == old(Transactions())[runId := transaction.View()]
      ensures PipeView() == WriteAll(old(PipeView()), [payload], look)
    {
      payload := transaction.pending[transaction.nextSeq];
      transaction.pending := transaction.pending - {transaction.nextSeq};
      transaction.nextSeq := transaction.nextSeq + 1;
      WriteTerminalDataPayload(payload);
    }

    /** Frames still waiting keep the gap timer armed; otherwise it is cancelled. */
    method SettleGapTimer(runId: string, transaction: RunVisualTransaction)
      requires Valid() && runId in runVisualTransactions && runVisualTransactions[runId] == transaction
      modifies transaction`gapTimerArmed
      ensures transaction.gapTimerArmed <==> transaction.pending != map[]
      ensures Transactions() == old(Transactions())[runId := transaction.View()]
    {
      if |transaction.pending| > 0 {
        transaction.gapTimerArmed := true;
      } else if transaction.gapTimerArmed {
        transaction.gapTimerArmed := false;
      }
    }

    method DrainRunVisualTransaction(runId: string, transaction: RunVisualTransaction)
      requires Valid() && runId in runVisualTransactions && runVisualTransactions[runId] == transaction
      modifies this, transaction
      ensures Valid()
      ensures var o := Drain(old(transaction.View()));
              && Transactions() == Keep(old(Transactions()), runId, o.state)
              && PipeView() == WriteAll(old(PipeView()), o.written, look)
    {
      ghost var start, txs, pipe := transaction.View(), Transactions(), PipeView();
      ghost var written: seq<Payload> := [];
      while transaction.nextSeq in transaction.pending
        invariant runVisualTransactions == old(runVisualTransactions)
        invariant Transactions() == txs[runId := transaction.View()]
        invariant PipeView() == WriteAll(pipe, written, look)
        invariant Joined(written, Drain(transaction.View())) == Drain(start)
        decreases |transaction.pending|
      {
        ghost var before := transaction.View();
        var payload := WriteNextFrame(runId, transaction);
        DrainTurn(before, transaction.View(), written);
        OverKey(txs, runId, before, transaction.View());
        WriteAllSnoc(pipe, written, payload, look);
        written := written + [payload];
        if payload.source == InjectedSeparator {
          ClearRunVisualTransaction(runId);
          WithoutKey(txs, runId, transaction.View());
          assert Drain(start) == Outcome(written, None);
          return;
        }
      }
      assert Drain(start).written == written + [] == written;
      ghost var before := transaction.View();
      SettleGapTimer(runId, transaction);
      OverKey(txs, runId, before, transaction.View());
      assert Drain(start).state == Some(transaction.View());
    }

    /** The part of the handler behind the look-up of the transaction. */
    method AcceptFrame(runId: string, transaction: RunVisualTransaction, payload: Payload)
      requires Valid() && runId in runVisualTransactions && runVisualTransactions[runId] == transaction
      requires IsSequenced(payload)
      modifies this, transaction
      ensures Valid()
      ensures var o := Receive(old(transaction.View()), payload);
              && Transactions() == Keep(old(Transactions()), runId, o.state)
              && PipeView() == WriteAll(old(PipeView()), o.written, look)
    {
      ghost var txs := Transactions();
      if payload.runSeq.value < transaction.nextSeq {
        assert Transactions() == txs[runId := transaction.View()];
        return;
      }
      transaction.pending := transaction.pending[payload.runSeq.value := payload];
      ghost var ready := transaction.View();
      assert Transactions() == txs[runId := ready];
      DrainRunVisualTransaction(runId, transaction);
      KeepOver(txs, runId, ready, Drain(ready).state);
    }

    method HandleRunVisualDataPayload(payload: Payload)
      requires Valid()
      modifies this, runVisualTransactions.Values
      ensures Valid()
      ensures var o := SessionStep(old(Transactions()), Data(payload));
              && Transactions() == o.transactions
              && PipeView() == WriteAll(old(PipeView()), o.written, look)
    {
      if !IsSequenced(payload) {
        WriteTerminalDataPayload(payload);
        return;
      }
      var runId := payload.runId.value;
      var transaction := GetRunVisualTransaction(runId);
      ghost var txs, current := old(Transactions()), Current(old(Transactions()), runId);
      assert Transactions() == txs[runId := current];
      AcceptFrame(runId, transaction, payload);
      KeepOver(txs, runId, current, Receive(current, payload).state);
    }

    /** The gap timer of a run fires. */
    method OnGapTimer(runId: string)
      requires Valid() && runId in runVisualTransactions && runVisualTransactions[runId].gapTimerArmed
      modifies this, runVisualTransactions.Values
      ensures Valid()
      ensures var o := SessionStep(old(Transactions()), GapTimer(runId));
              && Transactions() == o.transactions
              && PipeView() == WriteAll(old(PipeView()), o.written, look)
    {
      var transaction := runVisualTransactions[runId];
      transaction.gapTimerArmed := false;
      if |transaction.pending| == 0 {
        assert Transactions() == old(Transactions())[runId := transaction.View()];
        return;
      }
      var lowestPendingSeq := Lowest(transaction.pending.Keys);
      if transaction.nextSeq !in transaction.pending {
        transaction.nextSeq := lowestPendingSeq;
      }
      ghost var txs, ready := old(Transactions()), transaction.View();
      assert Transactions() == txs[runId := ready];
      DrainRunVisualTransaction(runId, transaction);
      KeepOver(txs, runId, ready, Drain(ready).state);
    }
  }
}
