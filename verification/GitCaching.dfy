/**
 What becomes of a fetched baseline (src/store/git.ts, 144-147 and 186-226): exactly when an answer is
 cached, and exactly when the answer a caller shares is up to date. One epoch counts for all files, so an
 answer can be thrown away because of another file.
 */
module GitCaching {
  import opened Prelude
  import opened GitBaseline

  lemma {:induction false} PossiblePrefix(trace: seq<Event>, j: nat)
    requires Possible(trace) && j <= |trace|
    ensures Possible(trace[..j])
  {
    if j < |trace| {
      var before := trace[..|trace| - 1];
      PossiblePrefix(before, j);
      assert trace[..j] == before[..j];
    } else {
      assert trace[..j] == trace;
    }
  }

  /** The world before event j. */
  ghost function At(trace: seq<Event>, j: nat): World
    requires Possible(trace) && j <= |trace|
  {
    PossiblePrefix(trace, j);
    After(trace[..j])
  }

  lemma AtPrefix(trace: seq<Event>, e: Event, j: nat)
    requires Possible(trace + [e]) && j <= |trace|
    ensures Possible(trace) && At(trace + [e], j) == At(trace, j)
    ensures Enabled(After(trace), e) && After(trace + [e]) == Happen(After(trace), e, |trace|)
    ensures At(trace, |trace|) == After(trace)
  {
    assert (trace + [e])[..|trace|] == trace;
    assert (trace + [e])[..j] == trace[..j];
    assert trace[..|trace|] == trace;
  }

  // ---------------------------------------------------------------------------
  // The epoch
  // ---------------------------------------------------------------------------

  /** The event moves the epoch on: a clear, or the invalidation of a file that is cached or being fetched. */
  predicate MovesEpoch(w: World, e: Event) {
    e.ClearAll? || (e.InvalidateFile? && e.key != "" && (e.key in w.cache.entries || e.key in w.cache.pending))
  }

  ghost predicate NoMovesSince(trace: seq<Event>, r: nat)
    requires Possible(trace)
  {
    forall j :: r < j < |trace| ==> !MovesEpoch(At(trace, j), trace[j])
  }

  lemma EpochStep(w: World, e: Event, now: nat)
    requires Enabled(w, e)
    ensures Happen(w, e, now).cache.epoch == w.cache.epoch + if MovesEpoch(w, e) then 1 else 0
  {
  }

  /** A request that stays on its way keeps its file and its epoch. */
  lemma FlightStep(w: World, e: Event, now: nat, r: nat)
    requires Enabled(w, e) && r in Happen(w, e, now).flights && r != now
    ensures r in w.flights && Happen(w, e, now).flights[r].key == w.flights[r].key
    ensures Happen(w, e, now).flights[r].epochAtRequest == w.flights[r].epochAtRequest
  {
  }

  lemma NewFlight(w: World, e: Event, now: nat)
    requires Enabled(w, e) && now in Happen(w, e, now).flights && now !in w.flights
    ensures Happen(w, e, now).flights[now].epochAtRequest == Happen(w, e, now).cache.epoch
  {
  }

  lemma NoMovesSnoc(trace: seq<Event>, e: Event, r: nat)
    requires Possible(trace + [e]) && r < |trace|
    ensures Possible(trace) && (NoMovesSince(trace + [e], r) <==> NoMovesSince(trace, r) && !MovesEpoch(After(trace), e))
  {
    var all := trace + [e];
    AtPrefix(trace, e, |trace|);
    assert all[|trace|] == e;
    forall j | 0 <= j < |trace| ensures MovesEpoch(At(all, j), all[j]) == MovesEpoch(At(trace, j), trace[j]) {
      AtPrefix(trace, e, j);
      assert all[j] == trace[j];
    }
  }

  /** The epoch of a request is the current one exactly if no event has moved the epoch since. */
  lemma {:induction false} EpochExactly(trace: seq<Event>, r: nat)
    requires Possible(trace) && r in After(trace).flights
    ensures r < |trace| && After(trace).flights[r].epochAtRequest <= After(trace).cache.epoch
    ensures After(trace).flights[r].epochAtRequest == After(trace).cache.epoch <==> NoMovesSince(trace, r)
  {
    var before, e := trace[..|trace| - 1], trace[|trace| - 1];
    assert trace == before + [e];
    AtPrefix(before, e, |before|);
    AlwaysSound(before);
    if r == |before| {
      NewFlight(After(before), e, r);
    } else {
      FlightStep(After(before), e, |before|, r);
      EpochExactly(before, r);
      EpochStep(After(before), e, |before|);
      NoMovesSnoc(before, e, r);
    }
  }

  // ---------------------------------------------------------------------------
  // When an answer is cached
  // ---------------------------------------------------------------------------

  /** The cached answer's request has landed, if it is still to settle. */
  predicate HasLanded(w: World, now: nat, key: string)
    requires key in w.cache.entries
  {
    var r := w.cache.entries[key].request;
    r < now && (r in w.flights ==> w.flights[r].landed)
  }

  lemma LandedStep(w: World, e: Event, now: nat, key: string)
    requires Enabled(w, e) && key in Happen(w, e, now).cache.entries
    requires forall r :: r in w.flights ==> r < now
    requires key in w.cache.entries ==> HasLanded(w, now, key)
    ensures HasLanded(Happen(w, e, now), now + 1, key)
  {
  }

  /** What is cached has been answered. */
  lemma {:induction false} CachedHasLanded(trace: seq<Event>, key: string)
    requires Possible(trace) && key in After(trace).cache.entries
    ensures HasLanded(After(trace), |trace|, key)
  {
    var before, e := trace[..|trace| - 1], trace[|trace| - 1];
    assert trace == before + [e];
    AtPrefix(before, e, |before|);
    AlwaysSound(before);
    if key in After(before).cache.entries {
      CachedHasLanded(before, key);
    }
    LandedStep(After(before), e, |before|, key);
  }

  /** An answer is cached exactly if nothing has moved the epoch since its request: no clear, and no
      invalidation of any file that was cached or being fetched at that moment. */
  lemma AnswerCachedExactly(trace: seq<Event>, r: nat, content: string)
    requires Possible(trace) && Enabled(After(trace), Answered(r, content))
    ensures Possible(trace + [Answered(r, content)])
    ensures var key := After(trace).flights[r].key;
            var entries := After(trace + [Answered(r, content)]).cache.entries;
            (key in entries && entries[key].request == r) <==> NoMovesSince(trace, r)
    ensures var key := After(trace).flights[r].key;
            NoMovesSince(trace, r) ==> After(trace + [Answered(r, content)]).cache.entries[key] == Baseline(r, content)
  {
    var e, key := Answered(r, content), After(trace).flights[r].key;
    assert (trace + [e])[..|trace|] == trace;
    AtPrefix(trace, e, |trace|);
    EpochExactly(trace, r);
    if key in After(trace).cache.entries {
      CachedHasLanded(trace, key);
    }
  }

  /** An answer can be discarded because of another file: it is up to date, and not cached. */
  lemma OtherFileDiscardsAnswer(a: string, b: string, content: string)
    requires a != b && b != ""
    ensures var trace := [Ask(a), Ask(b), InvalidateFile(b)];
            && Possible(trace + [Answered(0, content)])
            && FreshSince(trace, 0, a)
            && a !in After(trace + [Answered(0, content)]).cache.entries
  {
    var t1, t2, t3: seq<Event> := [Ask(a)], [Ask(a), Ask(b)], [Ask(a), Ask(b), InvalidateFile(b)];
    AfterStep([], Ask(a));
    AfterStep(t1, Ask(b));
    assert [] + [Ask(a)] == t1 && t1 + [Ask(b)] == t2 && t2 + [InvalidateFile(b)] == t3;
    assert After(t2).cache == Cache(map[], 0, map[a := 0, b := 1]) && After(t2).flights[0] == Flight(a, 0, false);
    AfterStep(t2, InvalidateFile(b));
    assert After(t3).cache == Cache(map[], 1, map[a := 0, b := 1]);
    AfterStep(t3, Answered(0, content));
  }

  lemma AfterStep(trace: seq<Event>, e: Event)
    requires Possible(trace) && Enabled(After(trace), e)
    ensures Possible(trace + [e]) && After(trace + [e]) == Happen(After(trace), e, |trace|)
  {
    assert (trace + [e])[..|trace|] == trace;
  }

  // ---------------------------------------------------------------------------
  // When a shared answer is up to date
  // ---------------------------------------------------------------------------

  /** While a request is on its way, its file is being fetched. */
  lemma {:induction false} PendingSince(trace: seq<Event>, r: nat, j: nat)
    requires Possible(trace) && r in After(trace).flights && r < j <= |trace|
    ensures After(trace).flights[r].key in At(trace, j).cache.pending
  {
    AlwaysSound(trace);
    if j == |trace| {
      assert trace[..j] == trace;
    } else {
      var before, e := trace[..|trace| - 1], trace[|trace| - 1];
      assert trace == before + [e];
      AtPrefix(before, e, j);
      FlightStep(After(before), e, |before|, r);
      PendingSince(before, r, j);
    }
  }

  /** The answer a caller shares is up to date exactly if, of the events that have moved the epoch since the
      request, none was a clear and none named this file. */
  lemma SharedFreshExactly(trace: seq<Event>, key: string, r: nat)
    requires Possible(trace) && Get(After(trace).cache, key, |trace|).0 == Shared(r)
    ensures r < |trace| && trace[r] == Ask(key)
    ensures FreshSince(trace, r, key)
       <==> forall j :: r < j < |trace| && MovesEpoch(At(trace, j), trace[j]) ==>
              !trace[j].ClearAll? && trace[j] != InvalidateFile(key)
  {
    AlwaysSound(trace);
    forall j | r < j < |trace| ensures Outdates(trace[j], key) ==> MovesEpoch(At(trace, j), trace[j]) {
      PendingSince(trace, r, j);
    }
  }

  // ---------------------------------------------------------------------------
  // Every step
  // ---------------------------------------------------------------------------

  /** A file that is cached is answered from the cache; one that is being fetched shares the request; for any other a
      request is issued, remembers the epoch of the moment, and is shared from then on. */
  lemma AskExactly(w: World, key: string, now: nat)
    ensures var answer, v := Get(w.cache, key, now).0, Happen(w, Ask(key), now);
            if key in w.cache.entries then answer == Cached(w.cache.entries[key]) && v == w
            else if key in w.cache.pending then answer == Shared(w.cache.pending[key]) && v == w
            else
              && answer == Issued(now)
              && v == World(w.cache.(pending := w.cache.pending[key := now]),
                            w.flights[now := Flight(key, w.cache.epoch, false)])
  {}

  /** An answer, kept or not, and a failure leave everything else alone, and the request is still to be settled. */
  lemma LandingExactly(w: World, r: nat, content: string, now: nat)
    requires r in w.flights && !w.flights[r].landed
    ensures var landed := w.flights[r := w.flights[r].(landed := true)];
            && Happen(w, Rejected(r), now) == World(w.cache, landed)
            && Happen(w, Answered(r, content), now)
               == World(if w.flights[r].epochAtRequest == w.cache.epoch
                        then w.cache.(entries := w.cache.entries[w.flights[r].key := Baseline(r, content)]) else w.cache,
                        landed)
  {}

  /** Once a request is settled its file is not being fetched any more: unless it is cached, whoever asks next gets a
      request of their own. */
  lemma SettlingFreesFile(w: World, r: nat, now: nat)
    requires r in w.flights && w.flights[r].landed
    ensures var v, key := Happen(w, Settled(r), now), w.flights[r].key;
            && v == World(w.cache.(pending := w.cache.pending - {key}), w.flights - {r})
            && (key !in w.cache.entries ==> Get(v.cache, key, now + 1).0 == Issued(now + 1))
  {}

  /** An invalidated file is not cached any more, every other one still is; and a clear leaves none. */
  lemma InvalidationExactly(w: World, key: string, now: nat)
    ensures var v := Happen(w, InvalidateFile(key), now);
            && v.flights == w.flights && v.cache.pending == w.cache.pending
            && v.cache.entries == if key == "" then w.cache.entries else w.cache.entries - {key}
    ensures var v := Happen(w, ClearAll, now);
            v.flights == w.flights && v.cache.pending == w.cache.pending && v.cache.entries == map[]
  {
    assert key !in w.cache.entries ==> w.cache.entries - {key} == w.cache.entries;
  }
}
