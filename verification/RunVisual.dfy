/**
 Resequencing of the visual frames of a run (src/terminal/session.ts, 1325-1424), on values.

 Frames of a run carry sequence numbers from 1. They may arrive out of order, twice or never; a frame
 ahead of its turn waits in `pending`, a gap timer gives up on missing frames, and the separator frame
 ends the transaction of its run. Class `TerminalSession` does this in place and is proved against
 the functions here.
 */
module RunVisual {
  import opened Prelude

  datatype Source = Run | InjectedReset | InjectedSeparator | Interactive

  /** A `terminal:data` payload. A `runSeq` that is not an integer counts as absent. */
  datatype Payload = Payload(runId: Option<string>, runSeq: Option<int>, source: Source, data: string)

  datatype Transaction = Transaction(nextSeq: nat, pending: map<nat, Payload>, gapTimerArmed: bool)

  /** What one step wrote, and the transaction it leaves (None once the separator has ended it). */
  datatype Outcome = Outcome(written: seq<Payload>, state: Option<Transaction>)

  const MAX_SAFE_INTEGER := 0x1F_FFFF_FFFF_FFFF
  const FRESH := Transaction(1, map[], false)

  predicate IsSequenced(p: Payload) {
    p.runId.Some? && p.runId.value != "" && p.runSeq.Some? && 0 < p.runSeq.value <= MAX_SAFE_INTEGER
  }

  type Frame = p: Payload | IsSequenced(p) witness Payload(Some("r"), Some(1), Run, "")

  // ---------------------------------------------------------------------------
  // The steps of one transaction
  // ---------------------------------------------------------------------------

  function Drain(t: Transaction): Outcome
    decreases |t.pending|
  {
    if t.nextSeq !in t.pending then
      Outcome([], Some(t.(gapTimerArmed := t.pending != map[])))
    else
      var p := t.pending[t.nextSeq];
      assert |t.pending - {t.nextSeq}| < |t.pending| by {
        assert (t.pending - {t.nextSeq}).Keys == t.pending.Keys - {t.nextSeq};
      }
      if p.source == InjectedSeparator then Outcome([p], None)
      else
        var rest := Drain(t.(nextSeq := t.nextSeq + 1, pending := t.pending - {t.nextSeq}));
        Outcome([p] + rest.written, rest.state)
  }

  function Receive(t: Transaction, p: Frame): Outcome {
    if p.runSeq.value < t.nextSeq then Outcome([], Some(t))
    else Drain(t.(pending := t.pending[p.runSeq.value := p]))
  }

  lemma LowestExists(keys: set<nat>, k: nat)
    requires k in keys
    ensures exists low :: low in keys && forall j :: j in keys ==> low <= j
    decreases k
  {
    if j :| j in keys && j < k {
      LowestExists(keys, j);
    } else {
      assert forall j :: j in keys ==> k <= j;
    }
  }

  function Lowest(keys: set<nat>): (k: nat)
    requires keys != {}
    ensures k in keys && forall j :: j in keys ==> k <= j
  {
    assert exists low :: low in keys && forall j :: j in keys ==> low <= j by {
      var some :| some in keys;
      LowestExists(keys, some);
    }
    var k :| k in keys && forall j :: j in keys ==> k <= j;
    k
  }

  /** The gap timer fires: whatever is missing before the lowest waiting frame is given up. */
  function Recover(t: Transaction): Outcome {
    var idle := t.(gapTimerArmed := false);
    if t.pending == map[] then Outcome([], Some(idle))
    else if t.nextSeq in t.pending then Drain(idle)
    else Drain(idle.(nextSeq := Lowest(t.pending.Keys)))
  }

  // ---------------------------------------------------------------------------
  // What every step of a transaction keeps
  // ---------------------------------------------------------------------------

  ghost predicate Valid(t: Transaction) {
    && t.nextSeq >= 1
    && (forall k :: k in t.pending ==> k > t.nextSeq)
    && KeysMatch(t.pending)
    && (t.gapTimerArmed <==> t.pending != map[])
  }

  /** Sequence numbers strictly increase, within [low, high). */
  ghost predicate Ascending(written: seq<Payload>, low: nat, high: nat) {
    && (forall i :: 0 <= i < |written| ==> IsSequenced(written[i]) && low <= written[i].runSeq.value < high)
    && (forall i, j :: 0 <= i < j < |written| ==> written[i].runSeq.value < written[j].runSeq.value)
  }

  lemma AscendingConcat(a: seq<Payload>, b: seq<Payload>, low: nat, mid: nat, high: nat)
    requires Ascending(a, low, mid) && Ascending(b, mid, high) && low <= mid <= high
    ensures Ascending(a + b, low, high)
  {}

  /** `written` are the waiting frames numbered from `from` on, without a gap. */
  ghost predicate Contiguous(pending: map<nat, Payload>, from: nat, written: seq<Payload>) {
    forall k: nat :: from <= k < from + |written| ==> k in pending && pending[k] == written[k - from]
  }

  /** No separator before the last frame. */
  ghost predicate OneSeparatorAtMost(written: seq<Payload>) {
    forall i :: 0 <= i < |written| - 1 ==> written[i].source != InjectedSeparator
  }

  ghost predicate EndsInSeparator(written: seq<Payload>) {
    written != [] && written[|written| - 1].source == InjectedSeparator
  }

  /** What is left of `pending` once everything below `next` has been written. */
  function LeftFrom(pending: map<nat, Payload>, next: nat): map<nat, Payload> {
    map k | k in pending && k >= next :: pending[k]
  }

  /** `written` and `state` are what draining `t` comes to: the waiting frames up to the first gap,
      or up to the first separator if that comes before. */
  ghost predicate Drained(t: Transaction, written: seq<Payload>, state: Option<Transaction>) {
    && Contiguous(t.pending, t.nextSeq, written)
    && OneSeparatorAtMost(written)
    && (state.None? <==> EndsInSeparator(written))
    && (state.Some? ==>
          && state.value.nextSeq == t.nextSeq + |written| && state.value.nextSeq !in t.pending
          && state.value.pending == LeftFrom(t.pending, state.value.nextSeq)
          && (state.value.gapTimerArmed <==> state.value.pending != map[]))
  }

  ghost predicate NoneBelow(pending: map<nat, Payload>, low: nat) {
    forall k :: k in pending ==> k >= low
  }

  ghost predicate Shaped(t: Transaction) {
    Drained(t, Drain(t).written, Drain(t).state)
  }

  function Written(t: Transaction): Transaction {
    t.(nextSeq := t.nextSeq + 1, pending := t.pending - {t.nextSeq})
  }

  lemma ShapedStep(t: Transaction)
    requires t.nextSeq in t.pending && t.pending[t.nextSeq].source != InjectedSeparator
    requires Shaped(Written(t))
    ensures Shaped(t)
  {
    var rest := Drain(Written(t));
    assert Drain(t) == Outcome([t.pending[t.nextSeq]] + rest.written, rest.state);
    DrainedStep(t, Written(t), rest.written, rest.state);
  }

  lemma {:induction false} DrainIsShaped(t: Transaction)
    requires NoneBelow(t.pending, t.nextSeq)
    ensures Shaped(t)
    decreases |t.pending|
  {
    if t.nextSeq !in t.pending {
      NothingToDrain(t);
    } else if t.pending[t.nextSeq].source == InjectedSeparator {
      SeparatorIsDrained(t);
    } else {
      OneLessWaits(t.pending, t.nextSeq);
      DrainIsShaped(Written(t));
      ShapedStep(t);
    }
  }

  lemma DrainShape(t: Transaction)
    requires NoneBelow(t.pending, t.nextSeq)
    ensures Drained(t, Drain(t).written, Drain(t).state)
  {
    DrainIsShaped(t);
  }

  lemma OneLessWaits(pending: map<nat, Payload>, low: nat)
    requires low in pending && NoneBelow(pending, low)
    ensures |pending - {low}| < |pending| && NoneBelow(pending - {low}, low + 1)
  {
    assert (pending - {low}).Keys == pending.Keys - {low};
  }

  lemma SeparatorIsDrained(t: Transaction)
    requires t.nextSeq in t.pending && t.pending[t.nextSeq].source == InjectedSeparator
    ensures Drained(t, [t.pending[t.nextSeq]], None)
  {}

  lemma NothingToDrain(t: Transaction)
    requires NoneBelow(t.pending, t.nextSeq) && t.nextSeq !in t.pending
    ensures Drained(t, [], Some(t.(gapTimerArmed := t.pending != map[])))
  {
    assert LeftFrom(t.pending, t.nextSeq) == t.pending;
  }

  lemma ContiguousStep(pending: map<nat, Payload>, from: nat, written: seq<Payload>)
    requires from in pending && Contiguous(pending - {from}, from + 1, written)
    ensures Contiguous(pending, from, [pending[from]] + written)
  {
    var all := [pending[from]] + written;
    forall k: nat | from <= k < from + |all| ensures k in pending && pending[k] == all[k - from] {
      if k > from {
        assert k in pending - {from};
        assert all[k - from] == written[k - (from + 1)];
      }
    }
  }

  lemma DrainedStep(t: Transaction, rest: Transaction, written: seq<Payload>, state: Option<Transaction>)
    requires t.nextSeq in t.pending && t.pending[t.nextSeq].source != InjectedSeparator
    requires rest == t.(nextSeq := t.nextSeq + 1, pending := t.pending - {t.nextSeq})
    requires Drained(rest, written, state)
    ensures Drained(t, [t.pending[t.nextSeq]] + written, state)
  {
    ContiguousStep(t.pending, t.nextSeq, written);
    var all := [t.pending[t.nextSeq]] + written;
    assert written != [] ==> all[|all| - 1] == written[|written| - 1];
    forall i | 0 <= i < |all| - 1 ensures all[i].source != InjectedSeparator {
      if i > 0 {
        assert all[i] == written[i - 1];
      }
    }
    if state.Some? {
      assert LeftFrom(t.pending, state.value.nextSeq) == LeftFrom(rest.pending, state.value.nextSeq);
    }
  }

  ghost predicate KeysMatch(pending: map<nat, Payload>) {
    forall k :: k in pending ==> IsSequenced(pending[k]) && pending[k].runSeq == Some(k)
  }

  lemma ContiguousAscending(pending: map<nat, Payload>, from: nat, written: seq<Payload>)
    requires KeysMatch(pending) && Contiguous(pending, from, written)
    ensures Ascending(written, from, from + |written|)
    ensures forall p :: p in written ==> p in pending.Values
  {
    forall p | p in written ensures p in pending.Values {
      var i :| 0 <= i < |written| && written[i] == p;
      assert pending[from + i] == p;
    }
    forall i | 0 <= i < |written|
      ensures IsSequenced(written[i]) && written[i].runSeq.value == from + i
    {
      var p := written[i];
      assert pending[from + i] == p;
    }
  }

  lemma LeftIsValid(t: Transaction, u: Transaction)
    requires KeysMatch(t.pending) && 1 <= u.nextSeq && u.nextSeq !in t.pending
    requires u.pending == LeftFrom(t.pending, u.nextSeq) && (u.gapTimerArmed <==> u.pending != map[])
    ensures Valid(u)
  {}

  lemma DrainedKeeps(t: Transaction, written: seq<Payload>, state: Option<Transaction>)
    requires t.nextSeq >= 1 && KeysMatch(t.pending) && Drained(t, written, state)
    ensures Ascending(written, t.nextSeq, t.nextSeq + |written|)
    ensures state.Some? ==> Valid(state.value)
    ensures t.nextSeq in t.pending ==> written != []
    ensures forall p :: p in written ==> p in t.pending.Values
  {
    ContiguousAscending(t.pending, t.nextSeq, written);
    if state.Some? {
      LeftIsValid(t, state.value);
    }
  }

  lemma DrainKeeps(t: Transaction)
    requires t.nextSeq >= 1 && NoneBelow(t.pending, t.nextSeq) && KeysMatch(t.pending)
    ensures var o := Drain(t);
            && Drained(t, o.written, o.state)
            && Ascending(o.written, t.nextSeq, t.nextSeq + |o.written|)
            && (o.state.Some? ==> Valid(o.state.value))
            && (t.nextSeq in t.pending ==> o.written != [])
            && (forall p :: p in o.written ==> p in t.pending.Values)
  {
    var o := Drain(t);
    DrainShape(t);
    DrainedKeeps(t, o.written, o.state);
  }

  /** A waiting frame is written, or still waits. */
  lemma WaitingIsSplit(t: Transaction, written: seq<Payload>, u: Transaction, k: nat)
    requires NoneBelow(t.pending, t.nextSeq) && Drained(t, written, Some(u)) && k in t.pending
    ensures t.pending[k] in written || t.pending[k] in u.pending.Values
  {
    if k < u.nextSeq {
      assert written[k - t.nextSeq] == t.pending[k];
    } else {
      assert u.pending[k] == t.pending[k];
    }
  }

  lemma SplitWasWaiting(t: Transaction, written: seq<Payload>, u: Transaction, p: Payload)
    requires Drained(t, written, Some(u)) && (p in written || p in u.pending.Values)
    ensures p in t.pending.Values
  {
    if p in written {
      var i :| 0 <= i < |written| && written[i] == p;
      assert t.pending[t.nextSeq + i] == p;
    } else {
      var k: nat :| k in u.pending && u.pending[k] == p;
      assert t.pending[k] == p;
    }
  }

  /** Draining splits the waiting frames into the written ones and the ones still waiting. */
  lemma DrainSplits(t: Transaction, u: Transaction)
    requires NoneBelow(t.pending, t.nextSeq) && Drain(t).state == Some(u)
    ensures forall p :: p in t.pending.Values <==> p in Drain(t).written || p in u.pending.Values
  {
    DrainShape(t);
    var written := Drain(t).written;
    forall p | p in t.pending.Values ensures p in written || p in u.pending.Values {
      var k: nat :| k in t.pending && t.pending[k] == p;
      WaitingIsSplit(t, written, u, k);
    }
    forall p | p in written || p in u.pending.Values ensures p in t.pending.Values {
      SplitWasWaiting(t, written, u, p);
    }
  }

  datatype Event = Arrives(frame: Frame) | GapTimerFires

  /** The gap timer can fire only while it is armed. */
  function Step(t: Transaction, e: Event): Outcome {
    match e
    case Arrives(frame) => Receive(t, frame)
    case GapTimerFires => if t.gapTimerArmed then Recover(t) else Outcome([], Some(t))
  }

  /** The numbers written ascend from the next one on, and the transaction that is left goes on from there. */
  ghost predicate Continues(t: Transaction, o: Outcome) {
    match o.state
    case Some(u) => Valid(u) && t.nextSeq <= u.nextSeq && Ascending(o.written, t.nextSeq, u.nextSeq)
    case None => exists high :: Ascending(o.written, t.nextSeq, high) && t.nextSeq <= high
  }

  lemma DrainContinues(t: Transaction, from: Transaction)
    requires t.nextSeq <= from.nextSeq && 1 <= from.nextSeq
    requires NoneBelow(from.pending, from.nextSeq) && KeysMatch(from.pending)
    ensures Continues(t, Drain(from))
    ensures forall p :: p in Drain(from).written ==> p in from.pending.Values
  {
    DrainKeeps(from);
    var o := Drain(from);
    assert Ascending(o.written, t.nextSeq, from.nextSeq + |o.written|);
    if o.state.Some? {
      assert o.state.value.nextSeq == from.nextSeq + |o.written|;
    }
  }

  lemma StepKeeps(t: Transaction, e: Event)
    requires Valid(t)
    ensures var o := Step(t, e);
            && (o.state.Some? ==> Valid(o.state.value))
            && (o.state.Some? ==> t.nextSeq <= o.state.value.nextSeq)
            && (o.state.Some? ==> Ascending(o.written, t.nextSeq, o.state.value.nextSeq))
            && (o.state.None? ==>
                  exists high :: Ascending(o.written, t.nextSeq, high) && t.nextSeq <= high)
            && (forall p :: p in o.written ==>
                  p in t.pending.Values || (e.Arrives? && p == e.frame))
  {
    match e
    case Arrives(frame) =>
      if frame.runSeq.value >= t.nextSeq {
        var next := t.(pending := t.pending[frame.runSeq.value := frame]);
        DrainContinues(t, next);
        forall v | v in next.pending.Values ensures v in t.pending.Values || v == frame {}
      }
    case GapTimerFires =>
      if t.gapTimerArmed {
        DrainContinues(t, t.(gapTimerArmed := false, nextSeq := Lowest(t.pending.Keys)));
      }
  }

  /** The life of one transaction, up to the separator that ends it. */
  function Play(t: Transaction, events: seq<Event>): Outcome
    decreases events
  {
    if events == [] then Outcome([], Some(t))
    else
      var o := Step(t, events[0]);
      if o.state.None? then o
      else
        var rest := Play(o.state.value, events[1..]);
        Outcome(o.written + rest.written, rest.state)
  }

  /** Under any loss, duplication, reordering and timer firings: sequence numbers are written in
      strictly increasing order, and only frames that arrived are written. */
  lemma {:induction false} PlayWritesAscending(t: Transaction, events: seq<Event>)
    requires Valid(t)
    ensures var o := Play(t, events);
            && (o.state.Some? ==> Valid(o.state.value) && t.nextSeq <= o.state.value.nextSeq)
            && (o.state.Some? ==> Ascending(o.written, t.nextSeq, o.state.value.nextSeq))
            && (exists high :: t.nextSeq <= high && Ascending(o.written, t.nextSeq, high))
            && (forall p :: p in o.written ==> p in t.pending.Values || Arrives(p) in events)
            && (o.state.Some? ==> forall p :: p in o.state.value.pending.Values ==>
                  p in t.pending.Values || Arrives(p) in events)
    decreases events
  {
    if events == [] {
      assert Ascending([], t.nextSeq, t.nextSeq);
      return;
    }
    StepKeeps(t, events[0]);
    PendingProvenance(t, events[0]);
    var o := Step(t, events[0]);
    if o.state.Some? {
      var u := o.state.value;
      PlayWritesAscending(u, events[1..]);
      var rest := Play(u, events[1..]);
      var high :| u.nextSeq <= high && Ascending(rest.written, u.nextSeq, high);
      AscendingConcat(o.written, rest.written, t.nextSeq, u.nextSeq, high);
      if rest.state.Some? {
        AscendingConcat(o.written, rest.written, t.nextSeq, u.nextSeq, rest.state.value.nextSeq);
      }
    }
  }

  lemma PendingProvenance(t: Transaction, e: Event)
    requires Valid(t)
    ensures var o := Step(t, e);
            o.state.Some? ==> forall p :: p in o.state.value.pending.Values ==>
              p in t.pending.Values || e == Arrives(p)
  {
    match e
    case Arrives(frame) =>
      if frame.runSeq.value >= t.nextSeq {
        DrainKeeps(t.(pending := t.pending[frame.runSeq.value := frame]));
      }
    case GapTimerFires =>
      if t.gapTimerArmed {
        DrainKeeps(t.(gapTimerArmed := false, nextSeq := Lowest(t.pending.Keys)));
      }
  }

  /** The waiting frames are the written ones and the ones left. */
  ghost predicate SplitInto(pending: map<nat, Payload>, written: seq<Payload>, left: map<nat, Payload>) {
    forall p :: p in pending.Values <==> p in written || p in left.Values
  }

  lemma SplitJoins(pending: map<nat, Payload>, a: seq<Payload>, middle: map<nat, Payload>, b: seq<Payload>, left: map<nat, Payload>)
    requires SplitInto(pending, a, middle) && SplitInto(middle, b, left)
    ensures SplitInto(pending, a + b, left)
  {}

  /** Each firing of the gap timer writes at least one frame and leaves fewer waiting; every waiting
      frame is then written or still waiting, unless a waiting separator ended the transaction. */
  lemma FiringMakesProgress(t: Transaction)
    requires Valid(t) && t.gapTimerArmed
    ensures var o := Recover(t);
            && o.written != []
            && (match o.state
                case None => exists p :: p in t.pending.Values && p.source == InjectedSeparator
                case Some(u) =>
                  Valid(u) && |u.pending| < |t.pending| && SplitInto(t.pending, o.written, u.pending))
  {
    var from := t.(gapTimerArmed := false, nextSeq := Lowest(t.pending.Keys));
    DrainKeeps(from);
    var o := Drain(from);
    if o.state.Some? {
      var left := o.state.value.pending;
      assert from.nextSeq in t.pending && from.nextSeq !in left;
      assert left.Keys <= t.pending.Keys - {from.nextSeq};
      SubsetSize(left.Keys, t.pending.Keys - {from.nextSeq});
      DrainSplits(from, o.state.value);
    } else {
      assert o.written[|o.written| - 1] in t.pending.Values;
    }
  }

  lemma SubsetSize<T>(a: set<T>, b: set<T>)
    requires a <= b
    ensures |a| <= |b|
  {
    if x :| x in a {
      SubsetSize(a - {x}, b - {x});
    }
  }

  function Firings(n: nat): (events: seq<Event>)
    ensures |events| == n && forall i :: 0 <= i < n ==> events[i] == GapTimerFires
  {
    seq(n, i => GapTimerFires)
  }

  /** A transaction nothing more arrives for drains: within as many firings as frames were waiting,
      exactly the waiting frames are written, unless one of them is a separator. */
  lemma {:induction false} QuietTransactionDrains(t: Transaction, n: nat)
    requires Valid(t) && |t.pending| <= n
    ensures Quiet(t, Play(t, Firings(n)))
    decreases n
  {
    if n == 0 {
      assert t.pending == map[];
      return;
    }
    PlayFiring(t, n);
    if !t.gapTimerArmed {
      QuietTransactionDrains(t, n - 1);
      QuietJoins(t, [], t, Play(t, Firings(n - 1)));
      return;
    }
    FiringMakesProgress(t);
    var o := Recover(t);
    if o.state.Some? {
      var u := o.state.value;
      QuietTransactionDrains(u, n - 1);
      QuietJoins(t, o.written, u, Play(u, Firings(n - 1)));
    }
  }

  lemma PlayFiring(t: Transaction, n: nat)
    requires n > 0
    ensures var o := Step(t, GapTimerFires);
            Play(t, Firings(n)) == if o.state.None? then o
                                   else var rest := Play(o.state.value, Firings(n - 1));
                                        Outcome(o.written + rest.written, rest.state)
  {
    assert Firings(n)[1..] == Firings(n - 1);
  }

  /** Nothing is left waiting, and what waited was written; unless a waiting separator ended the transaction. */
  ghost predicate Quiet(t: Transaction, o: Outcome) {
    match o.state
    case Some(u) => u.pending == map[] && !u.gapTimerArmed && SplitInto(t.pending, o.written, map[])
    case None => exists p :: p in t.pending.Values && p.source == InjectedSeparator
  }

  lemma QuietJoins(t: Transaction, written: seq<Payload>, u: Transaction, rest: Outcome)
    requires SplitInto(t.pending, written, u.pending) && Quiet(u, rest)
    ensures Quiet(t, Outcome(written + rest.written, rest.state))
  {
    if rest.state.Some? {
      SplitJoins(t.pending, written, u.pending, rest.written, map[]);
    }
  }

  // ---------------------------------------------------------------------------
  // Any order of arrival, without losses
  // ---------------------------------------------------------------------------

  /** The frames 1..n of one run; only the last of them may be its separator. */
  ghost predicate IsRunOf(frames: seq<Payload>, runId: string) {
    && (forall i :: 0 <= i < |frames| ==>
          IsSequenced(frames[i]) && frames[i].runSeq.value == i + 1 && frames[i].runId == Some(runId))
    && OneSeparatorAtMost(frames)
  }

  ghost predicate OnlyArrivals(events: seq<Event>, frames: seq<Payload>) {
    forall e :: e in events ==> e.Arrives? && e.frame in frames
  }

  ghost predicate AllArrive(frames: seq<Payload>, events: seq<Event>) {
    forall i :: 0 <= i < |frames| ==> IsSequenced(frames[i]) && Arrives(frames[i]) in events
  }

  ghost predicate SeqsOf(frames: seq<Payload>, received: set<nat>) {
    forall k :: k in received ==> 1 <= k <= |frames|
  }

  /** The transaction once the frames numbered in `received` have arrived and the first `m` of the
      run have been written. */
  ghost function Awaiting(frames: seq<Payload>, received: set<nat>, m: nat): Transaction
    requires SeqsOf(frames, received)
  {
    var pending := map k | k in received && k > m :: frames[k - 1];
    Transaction(m + 1, pending, pending != map[])
  }

  /** `m` is the length of the gap-free part of what was received. */
  ghost predicate GapFree(received: set<nat>, m: nat) {
    (forall k :: 1 <= k <= m ==> k in received) && m + 1 !in received
  }

  lemma ContiguousFrames(frames: seq<Payload>, pending: map<nat, Payload>, m: nat, written: seq<Payload>)
    requires forall k :: k in pending ==> 1 <= k <= |frames| && pending[k] == frames[k - 1]
    requires m <= |frames| && Contiguous(pending, m + 1, written)
    ensures m + |written| <= |frames| && written == frames[m..m + |written|]
    ensures forall k: nat :: m < k <= m + |written| ==> k in pending
  {
    forall i | 0 <= i < |written| ensures m + i < |frames| && written[i] == frames[m + i] {
      var p := written[i];
      assert pending[m + 1 + i] == p;
    }
    if written != [] {
      var last := written[|written| - 1];
    }
    forall k: nat | m < k <= m + |written| ensures k in pending {
      var p := written[k - m - 1];
      assert pending[m + 1 + (k - m - 1)] == p;
    }
  }

  lemma FrameAt(frames: seq<Payload>, runId: string, frame: Frame)
    requires IsRunOf(frames, runId) && frame in frames
    ensures 1 <= frame.runSeq.value <= |frames| && frames[frame.runSeq.value - 1] == frame
  {}

  lemma AwaitingOneMore(frames: seq<Payload>, received: set<nat>, m: nat, s: nat)
    requires SeqsOf(frames, received) && m < s <= |frames|
    ensures SeqsOf(frames, received + {s})
    ensures Awaiting(frames, received, m).pending[s := frames[s - 1]]
         == Awaiting(frames, received + {s}, m).pending
  {}

  /** `o` is the outcome of an arrival: the run has been written up to the first frame now missing. */
  ghost predicate WrittenToGap(frames: seq<Payload>, received: set<nat>, m: nat, o: Outcome)
    requires SeqsOf(frames, received)
  {
    var m' := m + |o.written|;
    && m' <= |frames| && o.written == frames[m..m']
    && (o.state.Some? ==> GapFree(received, m') && o.state.value == Awaiting(frames, received, m'))
    && (o.state.None? ==> m' == |frames| && EndsInSeparator(frames))
  }

  lemma DrainedToGap(frames: seq<Payload>, received: set<nat>, m: nat, next: Transaction, o: Outcome)
    requires SeqsOf(frames, received) && OneSeparatorAtMost(frames) && m <= |frames|
    requires forall k :: 1 <= k <= m ==> k in received
    requires next.nextSeq == m + 1 && next.pending == Awaiting(frames, received, m).pending
    requires Drained(next, o.written, o.state)
    ensures WrittenToGap(frames, received, m, o)
  {
    ContiguousFrames(frames, next.pending, m, o.written);
    var m' := m + |o.written|;
    if o.state.Some? {
      forall k | 1 <= k <= m' ensures k in received {
        if k > m {
          assert k in next.pending;
        }
      }
      assert m' + 1 !in next.pending;
      assert o.state.value.pending == Awaiting(frames, received, m').pending;
    } else {
      assert frames[m' - 1] == o.written[|o.written| - 1];
    }
  }

  lemma ArrivalStep(frames: seq<Payload>, received: set<nat>, m: nat, frame: Frame)
    requires OneSeparatorAtMost(frames) && SeqsOf(frames, received)
    requires m <= |frames| && GapFree(received, m)
    requires 1 <= frame.runSeq.value <= |frames| && frames[frame.runSeq.value - 1] == frame
    ensures SeqsOf(frames, received + {frame.runSeq.value})
    ensures WrittenToGap(frames, received + {frame.runSeq.value}, m,
                         Receive(Awaiting(frames, received, m), frame))
  {
    if frame.runSeq.value <= m {
      assert received + {frame.runSeq.value} == received;
    } else {
      NewArrival(frames, received, m, frame);
    }
  }

  lemma NewArrival(frames: seq<Payload>, received: set<nat>, m: nat, frame: Frame)
    requires OneSeparatorAtMost(frames) && SeqsOf(frames, received)
    requires m <= |frames| && GapFree(received, m)
    requires m < frame.runSeq.value <= |frames| && frames[frame.runSeq.value - 1] == frame
    ensures SeqsOf(frames, received + {frame.runSeq.value})
    ensures WrittenToGap(frames, received + {frame.runSeq.value}, m,
                         Receive(Awaiting(frames, received, m), frame))
  {
    var t, s := Awaiting(frames, received, m), frame.runSeq.value;
    var next := t.(pending := t.pending[s := frame]);
    AwaitingOneMore(frames, received, m, s);
    DrainShape(next);
    DrainedToGap(frames, received + {s}, m, next, Drain(next));
  }

  ghost function SeqsIn(events: seq<Event>): set<nat> {
    set e | e in events && e.Arrives? :: e.frame.runSeq.value
  }

  lemma WrittenToGapJoin(frames: seq<Payload>, before: set<nat>, after: set<nat>, m: nat, o: Outcome, rest: Outcome)
    requires SeqsOf(frames, before) && SeqsOf(frames, after)
    requires WrittenToGap(frames, before, m, o) && o.state.Some?
    requires WrittenToGap(frames, after, m + |o.written|, rest)
    ensures WrittenToGap(frames, after, m, Outcome(o.written + rest.written, rest.state))
  {
    var mid := m + |o.written|;
    assert frames[m..mid] + frames[mid..mid + |rest.written|] == frames[m..mid + |rest.written|];
  }

  lemma SeqsWithin(frames: seq<Payload>, runId: string, received: set<nat>, events: seq<Event>)
    requires IsRunOf(frames, runId) && SeqsOf(frames, received) && OnlyArrivals(events, frames)
    ensures SeqsOf(frames, received + SeqsIn(events))
  {
    forall e | e in events ensures 1 <= e.frame.runSeq.value <= |frames| {
      FrameAt(frames, runId, e.frame);
    }
  }

  /** One arrival in front of a run of which that is known. */
  lemma WrittenToGapStep(frames: seq<Payload>, received: set<nat>, m: nat, o: Outcome, events: seq<Event>)
    requires SeqsOf(frames, received) && events != [] && events[0].Arrives?
    requires o == Step(Awaiting(frames, received, m), events[0])
    requires SeqsOf(frames, received + {events[0].frame.runSeq.value})
    requires SeqsOf(frames, received + SeqsIn(events))
    requires WrittenToGap(frames, received + {events[0].frame.runSeq.value}, m, o)
    requires o.state.Some? ==> WrittenToGap(frames, received + SeqsIn(events), m + |o.written|, Play(o.state.value, events[1..]))
    ensures WrittenToGap(frames, received + SeqsIn(events), m, Play(Awaiting(frames, received, m), events))
  {
    if o.state.Some? {
      var rest := Play(o.state.value, events[1..]);
      WrittenToGapJoin(frames, received + {events[0].frame.runSeq.value}, received + SeqsIn(events), m, o, rest);
    }
  }

  /** However the frames arrive, what has been written at any time is exactly the frames before the
      first missing one, and what waits is exactly the received rest. */
  lemma {:induction false} WrittenUpToFirstGap(frames: seq<Payload>, runId: string, received: set<nat>, m: nat,
                                               events: seq<Event>)
    requires IsRunOf(frames, runId) && SeqsOf(frames, received) && OnlyArrivals(events, frames)
    requires m <= |frames| && GapFree(received, m)
    ensures SeqsOf(frames, received + SeqsIn(events))
    ensures WrittenToGap(frames, received + SeqsIn(events), m, Play(Awaiting(frames, received, m), events))
    decreases events
  {
    SeqsWithin(frames, runId, received, events);
    if events == [] {
      assert received + SeqsIn(events) == received;
      return;
    }
    var frame := events[0].frame;
    var received1 := received + {frame.runSeq.value};
    FrameAt(frames, runId, frame);
    ArrivalStep(frames, received, m, frame);
    var o := Step(Awaiting(frames, received, m), events[0]);
    if o.state.Some? {
      forall e | e in events[1..] ensures e in events {}
      WrittenUpToFirstGap(frames, runId, received1, m + |o.written|, events[1..]);
      assert received1 + SeqsIn(events[1..]) == received + SeqsIn(events) by {
        SeqsInStep(events);
      }
    }
    WrittenToGapStep(frames, received, m, o, events);
  }

  lemma SeqsInStep(events: seq<Event>)
    requires events != [] && events[0].Arrives?
    ensures SeqsIn(events) == {events[0].frame.runSeq.value} + SeqsIn(events[1..])
  {
    assert events == [events[0]] + events[1..];
  }

  lemma FreshAwaitsAll(frames: seq<Payload>)
    ensures Awaiting(frames, {}, 0) == FRESH
  {
    assert Awaiting(frames, {}, 0).pending == map[];
  }

  lemma NothingMissing(frames: seq<Payload>, received: set<nat>, m: nat)
    requires SeqsOf(frames, received) && m <= |frames| && GapFree(received, m)
    requires forall k: nat :: 1 <= k <= |frames| ==> k in received
    ensures m == |frames| && Awaiting(frames, received, m).pending == map[]
  {
    assert m + 1 > |frames|;
    assert Awaiting(frames, received, m).pending.Keys == {};
  }

  /** Frames 1..n in any order, with any duplicates, and no gap timer: the transaction writes exactly
      frames 1..n, in order, once each, and is over iff the last one is the separator. */
  lemma AnyOrderIsWrittenInOrder(frames: seq<Payload>, runId: string, events: seq<Event>)
    requires IsRunOf(frames, runId) && OnlyArrivals(events, frames) && AllArrive(frames, events)
    ensures var o := Play(FRESH, events);
            && o.written == frames
            && (o.state.None? <==> EndsInSeparator(frames))
            && (o.state.Some? ==> o.state.value == Transaction(|frames| + 1, map[], false))
  {
    var o := Play(FRESH, events);
    WholeRun(frames, runId, events);
    AllReceived(frames, events);
    if o.state.Some? {
      PlayEndsAtSeparator(FRESH, events);
    }
    AllWritten(frames, SeqsIn(events), o);
  }

  lemma WholeRun(frames: seq<Payload>, runId: string, events: seq<Event>)
    requires IsRunOf(frames, runId) && OnlyArrivals(events, frames)
    ensures SeqsOf(frames, SeqsIn(events)) && WrittenToGap(frames, SeqsIn(events), 0, Play(FRESH, events))
  {
    FreshAwaitsAll(frames);
    WrittenUpToFirstGap(frames, runId, {}, 0, events);
    assert {} + SeqsIn(events) == SeqsIn(events);
  }

  lemma AllReceived(frames: seq<Payload>, events: seq<Event>)
    requires AllArrive(frames, events) && OnlyArrivals(events, frames)
    requires forall i :: 0 <= i < |frames| ==> IsSequenced(frames[i]) && frames[i].runSeq.value == i + 1
    ensures forall k: nat :: 1 <= k <= |frames| ==> k in SeqsIn(events)
  {
    forall k: nat | 1 <= k <= |frames| ensures k in SeqsIn(events) {
      assert Arrives(frames[k - 1]) in events;
    }
  }

  lemma AllWritten(frames: seq<Payload>, received: set<nat>, o: Outcome)
    requires SeqsOf(frames, received) && WrittenToGap(frames, received, 0, o)
    requires forall k: nat :: 1 <= k <= |frames| ==> k in received
    requires o.state.Some? ==> NoSeparator(o.written)
    ensures o.written == frames && (o.state.None? <==> EndsInSeparator(frames))
    ensures o.state.Some? ==> o.state.value == Transaction(|frames| + 1, map[], false)
  {
    assert frames[0..|frames|] == frames;
    if o.state.Some? {
      NothingMissing(frames, received, |o.written|);
      assert frames != [] ==> frames[|frames| - 1] in o.written;
    }
  }

  ghost predicate NoSeparator(written: seq<Payload>) {
    forall p :: p in written ==> p.source != InjectedSeparator
  }

  lemma OpenDrainHasNoSeparator(t: Transaction)
    requires NoneBelow(t.pending, t.nextSeq) && Drain(t).state.Some?
    ensures NoSeparator(Drain(t).written)
  {
    DrainShape(t);
    var written := Drain(t).written;
    forall p | p in written ensures p.source != InjectedSeparator {
      var i :| 0 <= i < |written| && written[i] == p;
      assert i == |written| - 1 ==> !EndsInSeparator(written);
    }
  }

  lemma OpenStepHasNoSeparator(t: Transaction, e: Event)
    requires Valid(t) && Step(t, e).state.Some?
    ensures NoSeparator(Step(t, e).written)
  {
    match e
    case Arrives(frame) =>
      if frame.runSeq.value >= t.nextSeq {
        OpenDrainHasNoSeparator(t.(pending := t.pending[frame.runSeq.value := frame]));
      }
    case GapTimerFires =>
      if t.gapTimerArmed {
        OpenDrainHasNoSeparator(t.(gapTimerArmed := false, nextSeq := Lowest(t.pending.Keys)));
      }
  }

  /** A transaction that is still open has not written a separator. */
  lemma {:induction false} PlayEndsAtSeparator(t: Transaction, events: seq<Event>)
    requires Valid(t) && Play(t, events).state.Some?
    ensures NoSeparator(Play(t, events).written)
    decreases events
  {
    if events != [] {
      StepKeeps(t, events[0]);
      OpenStepHasNoSeparator(t, events[0]);
      PlayEndsAtSeparator(Step(t, events[0]).state.value, events[1..]);
    }
  }

  // ---------------------------------------------------------------------------
  // Many runs at once
  // ---------------------------------------------------------------------------

  type Transactions = map<string, Transaction>

  function Current(txs: Transactions, runId: string): Transaction {
    if runId in txs then txs[runId] else FRESH
  }

  function Keep(txs: Transactions, runId: string, state: Option<Transaction>): Transactions {
    match state
    case Some(t) => txs[runId := t]
    case None => txs - {runId}
  }

  datatype SessionEvent = Data(payload: Payload) | GapTimer(runId: string)

  datatype SessionOutcome = SessionOutcome(written: seq<Payload>, transactions: Transactions)

  /** A payload without a usable run id and number is written at once. */
  function SessionStep(txs: Transactions, e: SessionEvent): SessionOutcome {
    match e
    case Data(p) =>
      if IsSequenced(p) then
        var o := Receive(Current(txs, p.runId.value), p);
        SessionOutcome(o.written, Keep(txs, p.runId.value, o.state))
      else SessionOutcome([p], txs)
    case GapTimer(runId) =>
      if runId in txs && txs[runId].gapTimerArmed then
        var o := Recover(txs[runId]);
        SessionOutcome(o.written, Keep(txs, runId, o.state))
      else SessionOutcome([], txs)
  }

  /** A payload is put in order exactly if it names a run and has a number a run can get to; any other is written as it
      comes, and no run notices. */
  lemma UnnumberedIsWrittenAtOnce(txs: Transactions, p: Payload)
    ensures IsSequenced(p) <==> p.runId !in {None, Some("")} && exists n: nat :: 1 <= n < 0x20_0000_0000_0000 && p.runSeq == Some(n)
    ensures !IsSequenced(p) ==> SessionStep(txs, Data(p)) == SessionOutcome([p], txs)
  {
    assert p.runId.Some? && p.runId.value == "" ==> p.runId == Some("");
    if IsSequenced(p) {
      var n: nat := p.runSeq.value;
      assert p.runSeq == Some(n);
    }
  }

  function SessionPlay(txs: Transactions, events: seq<SessionEvent>): SessionOutcome
    decreases events
  {
    if events == [] then SessionOutcome([], txs)
    else
      var o := SessionStep(txs, events[0]);
      var rest := SessionPlay(o.transactions, events[1..]);
      SessionOutcome(o.written + rest.written, rest.transactions)
  }

  predicate BelongsTo(p: Payload, runId: string) {
    IsSequenced(p) && p.runId == Some(runId)
  }

  /** The frames of one run among everything written. */
  function WrittenFor(written: seq<Payload>, runId: string): seq<Payload> {
    if written == [] then []
    else (if BelongsTo(written[0], runId) then [written[0]] else []) + WrittenFor(written[1..], runId)
  }

  /** The events that concern one run. */
  function EventsFor(events: seq<SessionEvent>, runId: string): seq<Event> {
    if events == [] then []
    else
      (match events[0]
       case Data(p) => if BelongsTo(p, runId) then [Arrives(p)] else []
       case GapTimer(id) => if id == runId then [GapTimerFires] else [])
      + EventsFor(events[1..], runId)
  }

  /** One run on its own, a fresh transaction following each that a separator has ended. */
  function PlayOn(t: Transaction, events: seq<Event>): (seq<Payload>, Transaction)
    decreases events
  {
    if events == [] then ([], t)
    else
      var o := Step(t, events[0]);
      var rest := PlayOn(if o.state.Some? then o.state.value else FRESH, events[1..]);
      (o.written + rest.0, rest.1)
  }

  ghost predicate OwnPending(t: Transaction, runId: string) {
    Valid(t) && forall p :: p in t.pending.Values ==> BelongsTo(p, runId)
  }

  ghost predicate SessionValid(txs: Transactions) {
    forall runId :: runId in txs ==> OwnPending(txs[runId], runId)
  }

  lemma {:induction false} WrittenForConcat(a: seq<Payload>, b: seq<Payload>, runId: string)
    ensures WrittenFor(a + b, runId) == WrittenFor(a, runId) + WrittenFor(b, runId)
  {
    if a == [] {
      assert a + b == b;
    } else {
      assert (a + b)[1..] == a[1..] + b;
      WrittenForConcat(a[1..], b, runId);
      var head := if BelongsTo(a[0], runId) then [a[0]] else [];
      assert WrittenFor(a, runId) == head + WrittenFor(a[1..], runId);
      assert WrittenFor(a + b, runId) == head + WrittenFor((a + b)[1..], runId);
    }
  }

  lemma {:induction false} WrittenForUniform(a: seq<Payload>, runId: string, own: bool)
    requires forall p :: p in a ==> BelongsTo(p, runId) == own
    ensures WrittenFor(a, runId) == if own then a else []
  {
    if a != [] {
      assert a[0] in a;
      forall p | p in a[1..] ensures p in a {}
      WrittenForUniform(a[1..], runId, own);
      assert a == [a[0]] + a[1..];
    }
  }

  /** What a step on one run's transaction writes and keeps waiting is that run's own. */
  lemma StepOwned(t: Transaction, e: Event, runId: string)
    requires OwnPending(t, runId) && (e.Arrives? ==> BelongsTo(e.frame, runId))
    ensures var o := Step(t, e);
            && (forall p :: p in o.written ==> BelongsTo(p, runId))
            && (o.state.Some? ==> OwnPending(o.state.value, runId))
  {
    StepKeeps(t, e);
    PendingProvenance(t, e);
  }

  /** What a session writes for a run, and the transaction it keeps for it, are what the run comes to alone. */
  ghost predicate Independent(txs: Transactions, events: seq<SessionEvent>, runId: string) {
    var alone := PlayOn(Current(txs, runId), EventsFor(events, runId));
    && WrittenFor(SessionPlay(txs, events).written, runId) == alone.0
    && Current(SessionPlay(txs, events).transactions, runId) == alone.1
  }

  lemma IndependentStep(txs: Transactions, events: seq<SessionEvent>, runId: string)
    requires SessionValid(txs) && events != []
    requires Independent(SessionStep(txs, events[0]).transactions, events[1..], runId)
    ensures Independent(txs, events, runId)
  {
    var o := SessionStep(txs, events[0]);
    var rest := SessionPlay(o.transactions, events[1..]);
    SessionStepProjects(txs, events[0], runId);
    WrittenForConcat(o.written, rest.written, runId);
    EventsForStep(Current(txs, runId), events, runId);
    if EventsFor([events[0]], runId) == [] {
      assert [] + WrittenFor(rest.written, runId) == WrittenFor(rest.written, runId);
    }
  }

  lemma {:induction false} SessionKeepsValid(txs: Transactions, events: seq<SessionEvent>)
    requires SessionValid(txs)
    ensures SessionValid(SessionPlay(txs, events).transactions)
    decreases events
  {
    if events != [] {
      SessionStepProjects(txs, events[0], "");
      SessionKeepsValid(SessionStep(txs, events[0]).transactions, events[1..]);
    }
  }

  lemma {:induction false} EveryRunIsIndependent(txs: Transactions, events: seq<SessionEvent>, runId: string)
    requires SessionValid(txs)
    ensures Independent(txs, events, runId)
    decreases events
  {
    if events != [] {
      SessionStepProjects(txs, events[0], runId);
      EveryRunIsIndependent(SessionStep(txs, events[0]).transactions, events[1..], runId);
      IndependentStep(txs, events, runId);
    }
  }

  /** Runs do not interfere: what a session writes for a run is what the run would write alone. */
  lemma RunsAreIndependent(txs: Transactions, events: seq<SessionEvent>, runId: string)
    requires SessionValid(txs)
    ensures SessionValid(SessionPlay(txs, events).transactions)
    ensures var alone := PlayOn(Current(txs, runId), EventsFor(events, runId));
            && WrittenFor(SessionPlay(txs, events).written, runId) == alone.0
            && Current(SessionPlay(txs, events).transactions, runId) == alone.1
  {
    SessionKeepsValid(txs, events);
    EveryRunIsIndependent(txs, events, runId);
  }

  lemma EventsForStep(t: Transaction, events: seq<SessionEvent>, runId: string)
    requires events != []
    ensures var mine := EventsFor([events[0]], runId);
            var later := EventsFor(events[1..], runId);
            if mine == [] then EventsFor(events, runId) == later
            else
              var o := Step(t, mine[0]);
              var rest := PlayOn(if o.state.Some? then o.state.value else FRESH, later);
              PlayOn(t, EventsFor(events, runId)) == (o.written + rest.0, rest.1)
  {
    var mine := EventsFor([events[0]], runId);
    assert EventsFor([events[0]][1..], runId) == [];
    assert EventsFor(events, runId) == mine + EventsFor(events[1..], runId);
    if mine != [] {
      assert EventsFor(events, runId)[1..] == EventsFor(events[1..], runId);
    }
  }

  lemma SessionStepProjects(txs: Transactions, e: SessionEvent, runId: string)
    requires SessionValid(txs)
    ensures var o := SessionStep(txs, e);
            var mine := EventsFor([e], runId);
            && SessionValid(o.transactions)
            && |mine| <= 1
            && (mine == [] ==> WrittenFor(o.written, runId) == []
                               && Current(o.transactions, runId) == Current(txs, runId))
            && (mine != [] ==>
                  var alone := Step(Current(txs, runId), mine[0]);
                  && WrittenFor(o.written, runId) == alone.written
                  && Current(o.transactions, runId) == (if alone.state.Some? then alone.state.value else FRESH))
  {
    var o := SessionStep(txs, e);
    match e
    case Data(p) =>
      if IsSequenced(p) {
        var id := p.runId.value;
        StepOwned(Current(txs, id), Arrives(p), id);
        WrittenForUniform(o.written, runId, id == runId);
      }
    case GapTimer(id) =>
      StepOwned(Current(txs, id), GapTimerFires, id);
      WrittenForUniform(o.written, runId, id == runId);
  }

  lemma {:induction false} PlayOnOneTransaction(t: Transaction, events: seq<Event>)
    requires events != [] ==> Play(t, events[..|events| - 1]).state.Some?
    ensures PlayOn(t, events).0 == Play(t, events).written
    decreases events
  {
    if |events| > 1 {
      assert events[..|events| - 1][1..] == events[1..][..|events[1..]| - 1];
      PlayOnOneTransaction(Step(t, events[0]).state.value, events[1..]);
    }
  }

  /** The frames of a run arrive in any order, with duplicates, among the traffic and the gap timers of
      other runs; its own gap timer does not fire, and nothing of it arrives once its separator has
      completed it. Then exactly its frames are written, in order, once each. */
  lemma EachRunIsWrittenInOrder(frames: seq<Payload>, runId: string, txs: Transactions, events: seq<SessionEvent>)
    requires IsRunOf(frames, runId) && SessionValid(txs) && runId !in txs
    requires OnlyArrivals(EventsFor(events, runId), frames) && AllArrive(frames, EventsFor(events, runId))
    requires var mine := EventsFor(events, runId);
             EndsInSeparator(frames) ==> mine != [] && !AllArrive(frames, mine[..|mine| - 1])
    ensures WrittenFor(SessionPlay(txs, events).written, runId) == frames
  {
    var mine := EventsFor(events, runId);
    RunsAreIndependent(txs, events, runId);
    AnyOrderIsWrittenInOrder(frames, runId, mine);
    if mine != [] {
      var before := mine[..|mine| - 1];
      forall e | e in before ensures e in mine {}
      FreshAwaitsAll(frames);
      WrittenUpToFirstGap(frames, runId, {}, 0, before);
      if Play(FRESH, before).state.None? {
        CompleteMeansAllArrived(frames, runId, before);
      }
    }
    PlayOnOneTransaction(FRESH, mine);
  }

  lemma CompleteMeansAllArrived(frames: seq<Payload>, runId: string, events: seq<Event>)
    requires IsRunOf(frames, runId) && OnlyArrivals(events, frames)
    requires Play(FRESH, events).written == frames
    ensures AllArrive(frames, events)
  {
    PlayWritesAscending(FRESH, events);
    forall i | 0 <= i < |frames| ensures IsSequenced(frames[i]) && Arrives(frames[i]) in events {
      assert frames[i] in Play(FRESH, events).written;
    }
  }
}
