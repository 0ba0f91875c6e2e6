/**
 What the actions of the conversation store do to the conversations (src/store/aiConversation.ts, 160-258, 263-404
 and 455-494), told from the list of threads: a state is one that satisfies the store's invariant.
 */
module ConversationLaws {
  import opened Prelude
  import opened AiConversation

  /** The conversations of a list and the empty thread, if it is the active one; a list that comes to nothing is replaced
      by a fresh empty thread. */
  ghost predicate Lists(t: State, conversations: seq<Thread>, empty: Option<Thread>, active: Option<Id>, nextId: nat) {
    if conversations == [] && empty.None? then
      t == State([Thread(Created(nextId), [])], Some(Created(nextId)), nextId + 1)
    else
      && t.threads == conversations + (if empty.Some? then [empty.value] else [])
      && t.activeThreadId == (if active.Some? then active else Some(t.threads[|t.threads| - 1].id))
      && t.nextId == nextId
  }

  lemma TrimmedExactly(threads: seq<Thread>, active: Option<Id>)
    requires |NonEmpty(threads)| <= 20
    ensures var current := FindThread(threads, active);
            TrimThreads(threads, active)
            == NonEmpty(threads) + if current.Some? && current.value.messages == [] then [current.value] else []
  {}

  /** The trimmed list has the active thread exactly if the list has. */
  lemma TrimmedHasActive(threads: seq<Thread>, active: Option<Id>)
    requires |NonEmpty(threads)| <= 20
    ensures FindThread(threads, active).Some? <==> active.Some? && HasThread(TrimThreads(threads, active), active.value)
  {
    var current, trimmed := FindThread(threads, active), TrimThreads(threads, active);
    TrimmedExactly(threads, active);
    NonEmptySubset(threads);
    if current.Some? {
      assert current.value in trimmed;
      var i :| 0 <= i < |trimmed| && trimmed[i] == current.value;
    } else {
      forall i | 0 <= i < |trimmed| ensures active.Some? ==> trimmed[i].id != active.value {
        assert trimmed[i] in threads;
      }
    }
  }

  /** Of a list of different threads with no more conversations than are kept, all conversations are kept in order, and
      of the empty threads only the active one. */
  lemma ReplaceLists(threads: seq<Thread>, active: Option<Id>, nextId: nat)
    requires UniqueIds(threads) && |NonEmpty(threads)| <= 20
    ensures var current := FindThread(threads, active);
            Lists(ReplaceThreadsState(threads, active, nextId), NonEmpty(threads),
                  if current.Some? && current.value.messages == [] then current else None,
                  if current.Some? then active else None, nextId)
  {
    TrimmedExactly(threads, active);
    TrimmedHasActive(threads, active);
  }

  // ---------------------------------------------------------------------------
  // Deleting and clearing
  // ---------------------------------------------------------------------------

  /** The list without one thread, in order. */
  function Others(threads: seq<Thread>, id: Id): seq<Thread> {
    if threads == [] then []
    else if threads[0].id == id then Others(threads[1..], id)
    else [threads[0]] + Others(threads[1..], id)
  }

  lemma {:induction false} WithoutIsOthers(threads: seq<Thread>, id: Id)
    ensures Without(threads, id) == Others(threads, id)
  {
    if threads != [] {
      WithoutIsOthers(threads[1..], id);
    }
  }

  lemma OthersCons(first: Thread, rest: seq<Thread>, id: Id)
    ensures Others([first] + rest, id) == (if first.id == id then [] else [first]) + Others(rest, id)
    ensures NonEmpty([first] + rest) == (if first.messages == [] then [] else [first]) + NonEmpty(rest)
  {
    assert ([first] + rest)[1..] == rest;
    assert [] + Others(rest, id) == Others(rest, id);
  }

  lemma {:induction false} ConversationsOfOthers(threads: seq<Thread>, id: Id)
    ensures NonEmpty(Others(threads, id)) == Others(NonEmpty(threads), id)
    ensures |NonEmpty(Others(threads, id))| <= |NonEmpty(threads)|
  {
    if threads != [] {
      var first, rest := threads[0], threads[1..];
      assert threads == [first] + rest;
      ConversationsOfOthers(rest, id);
      OthersCons(first, rest, id);
      OthersCons(first, Others(rest, id), id);
      OthersCons(first, NonEmpty(rest), id);
      assert [] + NonEmpty(rest) == NonEmpty(rest) && [] + Others(rest, id) == Others(rest, id);
      assert [] + NonEmpty(Others(rest, id)) == NonEmpty(Others(rest, id));
    }
  }

  lemma OthersHaveIt(threads: seq<Thread>, id: Id, other: Thread)
    requires UniqueIds(threads) && other in threads && other.id != id
    ensures FindThread(Others(threads, id), Some(other.id)) == Some(other)
  {
    WithoutIsOthers(threads, id);
    WithoutSubset(threads, id);
    WithoutUnique(threads, id);
    FindInUnique(Others(threads, id), other);
  }

  /** The thread that is active when one is deleted: the one that was, or the last of those that are left. */
  function NextActive(s: State, id: Id): Option<Thread> {
    var left := Others(s.threads, id);
    if s.activeThreadId != Some(id) then FindThread(s.threads, s.activeThreadId)
    else if left == [] then None else Some(left[|left| - 1])
  }

  function IfEmpty(thread: Option<Thread>): Option<Thread> {
    if thread.Some? && thread.value.messages == [] then thread else None
  }

  function IdOf(thread: Option<Thread>): Option<Id> {
    if thread.Some? then Some(thread.value.id) else None
  }

  lemma NextActiveIsFound(s: State, id: Id)
    requires Invariant(s) && HasThread(s.threads, id)
    ensures FindThread(Others(s.threads, id), ActiveAfterDelete(s, id, Others(s.threads, id))) == NextActive(s, id)
    ensures NextActive(s, id).Some? ==> ActiveAfterDelete(s, id, Others(s.threads, id)) == IdOf(NextActive(s, id))
  {
    var left := Others(s.threads, id);
    if s.activeThreadId != Some(id) {
      OthersHaveIt(s.threads, id, FindThread(s.threads, s.activeThreadId).value);
    } else if left != [] {
      WithoutIsOthers(s.threads, id);
      WithoutUnique(s.threads, id);
      FindInUnique(left, left[|left| - 1]);
    }
  }

  /** A deleted thread is gone, and every other conversation is still there, in order. An active thread that was not
      deleted stays active, with its messages; otherwise the last one that is left becomes active, or a fresh empty
      thread if none is. */
  lemma DeletionExactly(s: State, id: Id)
    requires Invariant(s) && HasThread(s.threads, id)
    ensures var t, active := Step(s, DeleteThread(id)), NextActive(s, id);
            && !HasThread(t.threads, id)
            && Lists(t, Others(NonEmpty(s.threads), id), IfEmpty(active), IdOf(active), s.nextId)
  {
    var left := Others(s.threads, id);
    WithoutIsOthers(s.threads, id);
    WithoutUnique(s.threads, id);
    ConversationsOfOthers(s.threads, id);
    NextActiveIsFound(s, id);
    ReplaceLists(left, ActiveAfterDelete(s, id, left), s.nextId);
    FreshIsNew(s, id);
    DeletedIsGone(s, id);
  }

  lemma FreshIsNew(s: State, id: Id)
    requires Invariant(s) && HasThread(s.threads, id)
    ensures Created(s.nextId) != id
  {
    var k :| 0 <= k < |s.threads| && s.threads[k].id == id;
    assert s.threads[k].id.Created? ==> s.threads[k].id.n < s.nextId;
  }

  lemma ReplacedAreListed(threads: seq<Thread>, active: Option<Id>, nextId: nat, thread: Thread)
    requires thread in ReplaceThreadsState(threads, active, nextId).threads
    ensures thread in threads || thread == Thread(Created(nextId), [])
  {
    TrimmedShape(threads, active);
  }

  lemma NobodyHasIt(threads: seq<Thread>, active: Option<Id>, nextId: nat, id: Id)
    requires Created(nextId) != id && forall thread :: thread in threads ==> thread.id != id
    ensures !HasThread(ReplaceThreadsState(threads, active, nextId).threads, id)
  {
    var t := ReplaceThreadsState(threads, active, nextId);
    forall i | 0 <= i < |t.threads| ensures t.threads[i].id != id {
      ReplacedAreListed(threads, active, nextId, t.threads[i]);
    }
  }

  lemma NobodyElseHasIt(threads: seq<Thread>, id: Id)
    ensures forall thread :: thread in Without(threads, id) ==> thread.id != id
  {
    WithoutSubset(threads, id);
  }

  lemma DeletedIsGone(s: State, id: Id)
    requires Created(s.nextId) != id
    ensures !HasThread(DeletedThread(s, id).threads, id)
  {
    var left := Without(s.threads, id);
    NobodyElseHasIt(s.threads, id);
    NobodyHasIt(left, ActiveAfterDelete(s, id, left), s.nextId, id);
  }

  /** A thread that is not there cannot be deleted or opened; opening one changes nothing but which is active. */
  lemma SwitchExactly(s: State, id: Id)
    ensures Step(s, SwitchThread(id)) == if HasThread(s.threads, id) then s.(activeThreadId := Some(id)) else s
    ensures !HasThread(s.threads, id) ==> Step(s, DeleteThread(id)) == s
  {}

  lemma StartedLists(threads: seq<Thread>, nextId: nat)
    requires UniqueIds(threads) && |NonEmpty(threads)| <= 20 && !HasThread(threads, Created(nextId))
    ensures ReplaceThreadsState(threads + [Thread(Created(nextId), [])], Some(Created(nextId)), nextId + 1)
         == State(NonEmpty(threads) + [Thread(Created(nextId), [])], Some(Created(nextId)), nextId + 1)
  {
    var added := Thread(Created(nextId), []);
    UniqueSnoc(threads, added);
    FindInUnique(threads + [added], added);
    NonEmptyConcat(threads, [added]);
    assert NonEmpty([added][1..]) == [] && NonEmpty(threads) + [] == NonEmpty(threads);
    ReplaceLists(threads + [added], Some(added.id), nextId + 1);
  }

  /** Clearing replaces the active thread by a fresh empty one, which becomes active; every other conversation is still
      there, in order. */
  lemma ClearingExactly(s: State)
    requires Invariant(s)
    ensures Step(s, ClearActiveThread)
         == State(Others(NonEmpty(s.threads), s.activeThreadId.value) + [Thread(Created(s.nextId), [])],
                  Some(Created(s.nextId)), s.nextId + 1)
  {
    ClearedList(s);
    ConversationsOfOthers(s.threads, s.activeThreadId.value);
    StartedLists(Others(s.threads, s.activeThreadId.value), s.nextId);
  }

  lemma ClearedList(s: State)
    requires Invariant(s)
    ensures var left := Others(s.threads, s.activeThreadId.value);
            && WithoutActive(s) == left && UniqueIds(left) && !HasThread(left, Created(s.nextId))
    ensures |NonEmpty(s.threads)| <= 20
  {
    WithoutIsOthers(s.threads, s.activeThreadId.value);
    WithoutKeeps(s, s.activeThreadId.value);
  }

  // ---------------------------------------------------------------------------
  // Writing
  // ---------------------------------------------------------------------------

  /** The list with the active thread's messages replaced. */
  ghost predicate IsFilled(s: State, filled: seq<Thread>, written: Thread, k: nat) {
    && k < |s.threads| && s.activeThreadId == Some(written.id) && s.threads[k].id == written.id
    && filled == s.threads[k := written] && UniqueIds(filled) && FindThread(filled, Some(written.id)) == Some(written)
  }

  lemma ReplacementFills(s: State, messages: seq<Message>) returns (filled: seq<Thread>, k: nat)
    requires Invariant(s)
    ensures IsFilled(s, filled, Thread(s.activeThreadId.value, messages), k)
    ensures Step(s, ReplaceMessages(messages)) == ReplaceThreadsState(filled, s.activeThreadId, s.nextId)
  {
    var id := s.activeThreadId.value;
    var front, last, at := ListShape(s, id);
    k := at;
    filled := s.threads[k := Thread(id, messages)];
    FindInUnique(s.threads, s.threads[k]);
    PatchedUnique(s.threads, id, ReplacingBy(messages), k);
    StillUnique(s.threads, k, messages);
    FindInUnique(filled, Thread(id, messages));
  }

  /** The thread is still active, with just those messages. */
  ghost predicate IsActiveWith(t: State, written: Thread, nextId: nat) {
    t.activeThreadId == Some(written.id) && t.nextId == nextId && FindThread(t.threads, Some(written.id)) == Some(written)
  }

  lemma FilledIsActive(s: State, filled: seq<Thread>, written: Thread, k: nat)
    requires Invariant(s) && IsFilled(s, filled, written, k) && written.messages != []
    ensures IsActiveWith(ReplaceThreadsState(filled, s.activeThreadId, s.nextId), written, s.nextId)
  {
    NonEmptyUnique(filled);
    LatestUnique(NonEmpty(filled));
    WrittenIsLatest(s, written, k);
    KeptActiveIsResult(filled, written, s.nextId);
  }

  lemma EmptiedIsActive(s: State, filled: seq<Thread>, written: Thread, k: nat)
    requires Invariant(s) && IsFilled(s, filled, written, k) && written.messages == []
    ensures IsActiveWith(ReplaceThreadsState(filled, s.activeThreadId, s.nextId), written, s.nextId)
  {
    EmptiedIsShorter(s.threads, k, written);
    ReplaceLists(filled, Some(written.id), s.nextId);
    assert filled[k] == written;
    EmptyStaysLast(filled, written);
  }

  /** What a replacement of the active thread's messages leaves: the thread is still active, with just those messages. */
  lemma ReplacementExactly(s: State, messages: seq<Message>)
    requires Invariant(s)
    ensures var t := Step(s, ReplaceMessages(messages));
            && t.activeThreadId == s.activeThreadId && t.nextId == s.nextId
            && FindThread(t.threads, t.activeThreadId) == Some(Thread(s.activeThreadId.value, messages))
  {
    var written := Thread(s.activeThreadId.value, messages);
    var filled, k := ReplacementFills(s, messages);
    if messages != [] {
      FilledIsActive(s, filled, written, k);
    } else {
      EmptiedIsActive(s, filled, written, k);
    }
  }

  /** Writing to a thread that is not there changes nothing. */
  lemma MissingThreadIsLeftAlone(s: State, id: Id, messages: seq<Message>)
    requires !HasThread(s.threads, id)
    ensures Step(s, ReplaceThreadMessages(id, messages)) == s && Step(s, TouchThread(id)) == s
  {}

  lemma KeepingChangesNothing(threads: seq<Thread>, id: Id)
    ensures Patched(threads, id, Keeping()) == threads
  {}

  /** Touching a thread keeps every conversation, in order, and the active thread. */
  lemma TouchExactly(s: State, id: Id)
    requires Invariant(s) && HasThread(s.threads, id)
    ensures var active := FindThread(s.threads, s.activeThreadId);
            Lists(Step(s, TouchThread(id)), NonEmpty(s.threads), IfEmpty(active), s.activeThreadId, s.nextId)
  {
    KeepingChangesNothing(s.threads, id);
    ReplaceLists(s.threads, s.activeThreadId, s.nextId);
  }

  /** The conversations, and a fresh empty thread that is active. */
  function Started(s: State): State {
    State(NonEmpty(s.threads) + [Thread(Created(s.nextId), [])], Some(Created(s.nextId)), s.nextId + 1)
  }

  lemma StartedIsActive(s: State)
    ensures WithActiveThread(Started(s)) == Started(s)
  {
    var threads := Started(s).threads;
    assert threads[|threads| - 1].id == Created(s.nextId);
    assert HasThread(threads, Created(s.nextId));
  }

  /** Where no thread is active, as an unclean saved state can leave it, one is started before it is written to. */
  lemma WritingStartsThread(s: State, message: Message)
    requires UniqueIds(s.threads) && |NonEmpty(s.threads)| <= 20 && !HasThread(s.threads, Created(s.nextId))
    requires FindThread(s.threads, s.activeThreadId).None?
    ensures Step(s, AppendMessage(message)) == Step(Started(s), AppendMessage(message))
  {
    StartedLists(s.threads, s.nextId);
    assert WithActiveThread(s) == Started(s);
    StartedIsActive(s);
  }

  lemma EmptyStaysLast(filled: seq<Thread>, written: Thread)
    requires UniqueIds(filled) && written in filled && written.messages == []
    ensures FindThread(NonEmpty(filled) + [written], Some(written.id)) == Some(written)
  {
    NonEmptyUnique(filled);
    NonEmptySubset(filled);
    var all := NonEmpty(filled) + [written];
    forall i | 0 <= i < |NonEmpty(filled)| ensures NonEmpty(filled)[i].id != written.id {
      DifferentThreads(filled, NonEmpty(filled)[i], written);
    }
    UniqueSnoc(NonEmpty(filled), written);
    assert all[|all| - 1] == written;
    FindInUnique(all, written);
  }

  // ---------------------------------------------------------------------------
  // Hydration
  // ---------------------------------------------------------------------------

  /** A saved message as it is taken over: one that was still streaming is cancelled, any other is unchanged. */
  ghost predicate IsTakenOver(saved: Message, message: Message) {
    message.content == saved.content && message.status == if saved.status == Streaming then Cancelled else saved.status
  }

  ghost predicate AreTakenOver(saved: seq<Message>, messages: seq<Message>) {
    |messages| == |saved| && forall i :: 0 <= i < |saved| ==> IsTakenOver(saved[i], messages[i])
  }

  ghost predicate ThreadsTakenOver(saved: seq<Thread>, threads: seq<Thread>) {
    && |threads| == |saved|
    && forall i :: 0 <= i < |saved| ==> threads[i].id == saved[i].id && AreTakenOver(saved[i].messages, threads[i].messages)
  }

  lemma MessagesAreTakenOver(saved: seq<Message>)
    ensures AreTakenOver(saved, NormalizeMessages(saved))
  {}

  lemma HydratedAreTakenOver(saved: seq<Thread>)
    ensures ThreadsTakenOver(saved, NormalizeHydrated(saved))
  {
    forall i | 0 <= i < |saved| ensures AreTakenOver(saved[i].messages, NormalizeHydrated(saved)[i].messages) {
      MessagesAreTakenOver(saved[i].messages);
    }
  }

  lemma {:induction false} ConversationsAreTakenOver(saved: seq<Thread>, threads: seq<Thread>)
    requires ThreadsTakenOver(saved, threads)
    ensures ThreadsTakenOver(NonEmpty(saved), NonEmpty(threads))
  {
    if saved != [] {
      assert ThreadsTakenOver(saved[1..], threads[1..]) by {
        assert forall i :: 0 <= i < |saved| - 1 ==> saved[1..][i] == saved[i + 1] && threads[1..][i] == threads[i + 1];
      }
      ConversationsAreTakenOver(saved[1..], threads[1..]);
      assert AreTakenOver(saved[0].messages, threads[0].messages);
    }
  }

  lemma TakenOverAreDifferent(saved: seq<Thread>, threads: seq<Thread>)
    requires UniqueIds(saved) && ThreadsTakenOver(saved, threads)
    ensures UniqueIds(threads)
  {}

  /** A saved state of different threads with at most 20 conversations is taken over whole: all its conversations in
      order, message by message, and its active thread, which is the last one if it is not among them. */
  lemma HydrationExactly(s: State, saved: seq<Thread>, active: Option<Id>) returns (threads: seq<Thread>)
    requires UniqueIds(saved) && |NonEmpty(saved)| <= 20
    ensures ThreadsTakenOver(saved, threads)
    ensures ThreadsTakenOver(NonEmpty(saved), NonEmpty(threads))
    ensures var current := FindThread(threads, active);
            Lists(Step(s, Hydrate(saved, active)), NonEmpty(threads), IfEmpty(current), if current.Some? then active else None,
                  s.nextId)
  {
    threads := NormalizeHydrated(saved);
    HydratedAreTakenOver(saved);
    ConversationsAreTakenOver(saved, threads);
    TakenOverAreDifferent(saved, threads);
    ReplaceLists(threads, active, s.nextId);
  }

  /** No message of a hydrated state is still streaming, whatever was saved. */
  lemma NothingStreamsAfterHydration(s: State, saved: seq<Thread>, active: Option<Id>, thread: Thread, i: nat)
    requires thread in Step(s, Hydrate(saved, active)).threads && i < |thread.messages|
    ensures thread.messages[i].status != Streaming
  {
    var threads := NormalizeHydrated(saved);
    HydratedAreTakenOver(saved);
    ReplacedAreListed(threads, active, s.nextId, thread);
    var k :| 0 <= k < |threads| && threads[k] == thread;
    assert IsTakenOver(saved[k].messages[i], thread.messages[i]);
  }

  /** A saved state of the old form becomes one fresh thread with its messages, and one that cannot be read a fresh empty
      thread. */
  lemma LegacyHydrationExactly(s: State, messages: seq<Message>) returns (taken: seq<Message>)
    ensures AreTakenOver(messages, taken)
    ensures Step(s, HydrateLegacy(messages)) == State([Thread(Created(s.nextId), taken)], Some(Created(s.nextId)), s.nextId + 1)
    ensures Step(s, HydrateNothing) == State([Thread(Created(s.nextId), [])], Some(Created(s.nextId)), s.nextId + 1)
  {
    taken := NormalizeMessages(messages);
    MessagesAreTakenOver(messages);
  }
}
