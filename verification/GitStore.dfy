/**
 The git store object (src/store/git.ts, 94-414): its fields, and its actions up to and after each
 request to the backend. The synchronous part of an asynchronous action is one method; the answer is
 another, called by the environment with the token or epoch the action had captured.
 */
module GitStore {
  import opened Prelude
  import opened GitBaseline
  import H = GitHistory

  class GitStore {
    const outside: H.Backend

    var status: H.Status
    var isLoading: bool
    var baselineCache: map<string, Baseline>
    var baselineEpoch: nat
    var pendingBaselineRequests: map<string, nat>
    var commitHistory: seq<string>
    var commitHistoryHasMore: bool
    var commitHistoryNextOffset: Option<nat>
    var isCommitHistoryLoading: bool
    var statusRequestId: nat
    var commitHistoryRequestId: nat

    function CacheView(): Cache
      reads this
    {
      Cache(baselineCache, baselineEpoch, pendingBaselineRequests)
    }

    function StoreView(): H.Store
      reads this
    {
      H.Store(status, statusRequestId, isLoading, commitHistory, commitHistoryHasMore,
        commitHistoryNextOffset, commitHistoryRequestId, isCommitHistoryLoading)
    }

    constructor (outside: H.Backend)
      ensures CacheView() == EMPTY && StoreView() == H.INITIAL && this.outside == outside
    {
      this.outside := outside;
      status, isLoading := H.Status(None, false), false;
      baselineCache, baselineEpoch, pendingBaselineRequests := map[], 0, map[];
      commitHistory, commitHistoryHasMore, commitHistoryNextOffset := [], false, Some(0);
      isCommitHistoryLoading, statusRequestId, commitHistoryRequestId := false, 0, 0;
    }

    // -------------------------------------------------------------------------
    // Baselines
    // -------------------------------------------------------------------------

    method ClearBaselineCache()
      modifies `baselineCache, `baselineEpoch
      ensures CacheView() == Clear(old(CacheView()))
    {
      baselineCache := map[];
      baselineEpoch := baselineEpoch + 1;
    }

    method InvalidateFileBaseline(path: Option<string>)
      modifies `baselineCache, `baselineEpoch
      ensures CacheView() == Invalidate(old(CacheView()), H.RootKey(outside, path))
    {
      var cacheKey := H.RootKey(outside, path);
      if cacheKey == "" {
        return;
      }
      var hasCached := cacheKey in baselineCache;
      var hasPending := cacheKey in pendingBaselineRequests;
      if !hasCached && !hasPending {
        return;
      }
      if hasCached {
        baselineCache := baselineCache - {cacheKey};
      } else {
        assert baselineCache - {cacheKey} == baselineCache;
      }
      baselineEpoch := baselineEpoch + 1;
    }

    /** Returns what the caller gets, and the epoch that a request issued now remembers. */
    method GetFileBaseline(path: string, number: nat) returns (answer: Answer, epochAtRequest: nat)
      modifies `pendingBaselineRequests
      ensures (answer, CacheView()) == Get(old(CacheView()), H.RootKey(outside, Some(path)), number)
      ensures epochAtRequest == baselineEpoch
    {
      var cacheKey := H.RootKey(outside, Some(path));
      epochAtRequest := baselineEpoch;
      if cacheKey in baselineCache {
        answer := Cached(baselineCache[cacheKey]);
        return;
      }
      if cacheKey in pendingBaselineRequests {
        answer := Shared(pendingBaselineRequests[cacheKey]);
        return;
      }
      pendingBaselineRequests := pendingBaselineRequests[cacheKey := number];
      answer := Issued(number);
    }

    method OnBaselineAnswered(cacheKey: string, epochAtRequest: nat, payload: Baseline)
      modifies `baselineCache
      ensures CacheView() == Arrive(old(CacheView()), cacheKey, epochAtRequest, payload)
    {
      if epochAtRequest == baselineEpoch {
        baselineCache := baselineCache[cacheKey := payload];
      }
    }

    method OnBaselineSettled(cacheKey: string)
      modifies `pendingBaselineRequests
      ensures CacheView() == Forget(old(CacheView()), cacheKey)
    {
      pendingBaselineRequests := pendingBaselineRequests - {cacheKey};
    }

    // -------------------------------------------------------------------------
    // Status
    // -------------------------------------------------------------------------

    method ResetCommitHistory()
      modifies `commitHistoryRequestId, `commitHistory, `commitHistoryHasMore, `commitHistoryNextOffset
      ensures StoreView() == H.ResetHistory(old(StoreView()))
    {
      commitHistoryRequestId := commitHistoryRequestId + 1;
      commitHistory := [];
      commitHistoryHasMore := false;
      commitHistoryNextOffset := Some(0);
    }

    method Reset()
      modifies this
      ensures StoreView() == H.Reset(old(StoreView()))
      ensures CacheView() == Clear(old(CacheView()))
    {
      statusRequestId := statusRequestId + 1;
      commitHistoryRequestId := commitHistoryRequestId + 1;
      isLoading := false;
      isCommitHistoryLoading := false;
      status := H.Status(None, false);
      ClearBaselineCache();
      ResetCommitHistory();
    }

    method ApplyStatus(payload: H.Status)
      modifies this
      ensures StoreView() == H.ApplyStatus(outside, old(StoreView()), payload)
      ensures CacheView() == if H.Switches(outside, old(StoreView()), payload) then Clear(old(CacheView()))
                             else old(CacheView())
    {
      var previousRepositoryRoot := H.RootKey(outside, status.root);
      var nextRepositoryRoot := H.RootKey(outside, payload.root);
      status := payload;
      if previousRepositoryRoot != nextRepositoryRoot || !payload.available {
        ClearBaselineCache();
        ResetCommitHistory();
      }
    }

    /** Up to the request: None where the workspace is missing and the store is reset instead. */
    method BeginStatusRequest(workspaceRootPath: Option<string>) returns (requestId: Option<nat>)
      modifies this
      ensures StoreView() == H.BeginStatus(old(StoreView()), workspaceRootPath)
      ensures CacheView() == if H.HasRoot(workspaceRootPath) then old(CacheView()) else Clear(old(CacheView()))
      ensures requestId == if H.HasRoot(workspaceRootPath) then Some(statusRequestId) else None
    {
      if workspaceRootPath.None? || workspaceRootPath.value == "" {
        Reset();
        return None;
      }
      statusRequestId := statusRequestId + 1;
      isLoading := true;
      requestId := Some(statusRequestId);
    }

    /** The payload arrives; `accepted` is false where `validatePayload` throws. */
    method OnStatusArrived(requestId: nat, payload: H.Status, accepted: bool)
      modifies this
      ensures StoreView() == H.FinishStatus(outside, old(StoreView()), requestId, payload, accepted)
      ensures CacheView() ==
                if requestId == old(statusRequestId) && accepted && H.Switches(outside, old(StoreView()), payload)
                then Clear(old(CacheView())) else old(CacheView())
    {
      if requestId != statusRequestId {
        return;
      }
      if accepted {
        ApplyStatus(payload);
      }
      if requestId == statusRequestId {
        isLoading := false;
      }
    }

    method OnStatusFailed(requestId: nat)
      modifies `isLoading
      ensures StoreView() == H.AbandonStatus(old(StoreView()), requestId)
    {
      if requestId == statusRequestId {
        isLoading := false;
      }
    }

    // -------------------------------------------------------------------------
    // Commit history
    // -------------------------------------------------------------------------

    /** Up to the request: None where there is nothing more to load, or no repository to load from. */
    method LoadCommitHistory(append: bool, limit: Option<nat>) returns (load: Option<H.Load>)
      modifies `commitHistoryRequestId, `isCommitHistoryLoading
      ensures (StoreView(), load) == H.BeginLoad(old(StoreView()), append, limit)
    {
      var nextOffset := if append then commitHistoryNextOffset else Some(0);
      if append && nextOffset.None? {
        return None;
      }
      commitHistoryRequestId := commitHistoryRequestId + 1;
      var requestId := commitHistoryRequestId;
      isCommitHistoryLoading := true;
      if status.root.None? || status.root.value == "" {
        if requestId == commitHistoryRequestId {
          isCommitHistoryLoading := false;
        }
        return None;
      }
      load := Some(H.Load(append, nextOffset.value, limit, status.root.value));
    }

    method OnHistoryPage(requestId: nat, append: bool, payload: H.Page)
      modifies `commitHistory, `commitHistoryHasMore, `commitHistoryNextOffset, `isCommitHistoryLoading
      ensures StoreView() == H.FinishLoad(old(StoreView()), requestId, append, payload)
    {
      if requestId != commitHistoryRequestId {
        return;
      }
      commitHistory := if append then commitHistory + payload.entries else payload.entries;
      commitHistoryHasMore := payload.hasMore;
      commitHistoryNextOffset := payload.nextOffset;
      if requestId == commitHistoryRequestId {
        isCommitHistoryLoading := false;
      }
    }

    method OnHistoryFailed(requestId: nat)
      modifies `isCommitHistoryLoading
      ensures StoreView() == H.AbandonLoad(old(StoreView()), requestId)
    {
      if requestId == commitHistoryRequestId {
        isCommitHistoryLoading := false;
      }
    }
  }
}
