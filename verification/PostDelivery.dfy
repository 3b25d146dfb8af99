/**
 The shared retry loop for session-event POSTs
 (omnicraft/_native_post_delivery.py). The transport is an adversary: an
 arbitrary function from the number of a POST to its outcome. The server keeps
 a ghost count of the commits those outcomes stand for.
 */
module PostDelivery {
  import opened Wrappers
  import opened ForwarderHealth

  const ITEM_EVENT := "external_conversation_item"

  datatype HttpError =
    | HttpStatusError
    | ConnectError
    | ConnectTimeout
    | PoolTimeout
    | OtherTransportError(name: string)

  /** What one POST came to, and for a raised error whether the server had committed it. */
  datatype PostOutcome =
    | Responded(status: int)
    | Raised(error: HttpError, committed: bool)

  function Commits(o: PostOutcome): nat {
    match o
    case Responded(status) => if status < 400 then 1 else 0
    case Raised(_, committed) => if committed then 1 else 0
  }

  /** The delivery contract: no bytes sent, or an error status, means no commit. */
  predicate Honest(o: PostOutcome) {
    match o
    case Responded(_) => true
    case Raised(HttpStatusError, committed) => !committed
    case Raised(ConnectError, committed) => !committed
    case Raised(ConnectTimeout, committed) => !committed
    case Raised(PoolTimeout, committed) => !committed
    case Raised(OtherTransportError(_), _) => true
  }

  predicate MayHaveBeenDelivered(e: HttpError) {
    if e.HttpStatusError? then false
    else if e.ConnectError? || e.ConnectTimeout? || e.PoolTimeout? then false
    else true
  }

  /** The classifier answers yes exactly for the errors behind which a commit may hide. */
  lemma ClassifierExact(e: HttpError)
    ensures MayHaveBeenDelivered(e) <==> Honest(Raised(e, true))
  {
    match e {
      case HttpStatusError =>
      case ConnectError =>
      case ConnectTimeout =>
      case PoolTimeout =>
      case OtherTransportError(_) =>
    }
  }

  /** Commits of the POSTs numbered `start` up to but not including `end`. */
  function TotalCommits(script: nat -> PostOutcome, start: nat, end: nat): nat
    requires start <= end
  {
    if start == end then 0 else TotalCommits(script, start, end - 1) + Commits(script(end - 1))
  }

  /** An outcome after which another attempt is made while attempts remain. */
  predicate Retryable(o: PostOutcome, item: bool, retryCodes: set<int>) {
    match o
    case Responded(status) => status >= 400 && status in retryCodes
    case Raised(e, _) => !(item && MayHaveBeenDelivered(e))
  }

  /** POSTs `start` to `end` are a whole call: each but the last may be retried, and the last ends it. */
  ghost predicate IsCall(script: nat -> PostOutcome, start: nat, end: nat,
                         item: bool, maxAttempts: int, retryCodes: set<int>)
  {
    && start <= end
    && (start == end <==> maxAttempts <= 0)
    && (start < end ==> end - start <= maxAttempts)
    && (forall k: nat | start <= k < end - 1 :: Retryable(script(k), item, retryCodes))
    && (start < end < start + maxAttempts ==> !Retryable(script(end - 1), item, retryCodes))
  }

  ghost predicate SawResponse(script: nat -> PostOutcome, start: nat, end: nat) {
    exists k: nat | start <= k < end :: script(k).Responded?
  }

  /** A call determines how many attempts it makes. */
  lemma CallLengthUnique(script: nat -> PostOutcome, start: nat, end: nat, other: nat,
                         item: bool, maxAttempts: int, retryCodes: set<int>)
    requires IsCall(script, start, end, item, maxAttempts, retryCodes)
    requires IsCall(script, start, other, item, maxAttempts, retryCodes)
    ensures end == other
  {
  }

  /**
   After which attempt of a call there is another: while attempts remain, after
   an error status to retry, and after an error that proves the request was
   never sent or, for anything but an item, after any error.
   */
  lemma RetriedExactly(script: nat -> PostOutcome, start: nat, end: nat, k: nat,
                       item: bool, maxAttempts: int, retryCodes: set<int>)
    requires IsCall(script, start, end, item, maxAttempts, retryCodes) && start <= k < end
    ensures k + 1 < end
            <==> k - start + 1 < maxAttempts
                 && match script(k)
                    case Responded(status) => status >= 400 && status in retryCodes
                    case Raised(error, _) =>
                      !item || error in {HttpStatusError, ConnectError, ConnectTimeout, PoolTimeout}
  {
    assert k + 1 < end ==> Retryable(script(k), item, retryCodes);
  }

  /** Attempts of a conversation item that are followed by another one commit nothing. */
  lemma {:induction false} RetriedAttemptsCommitNothing(script: nat -> PostOutcome, start: nat, end: nat, retryCodes: set<int>)
    requires start <= end
    requires forall k: nat | start <= k < end :: Honest(script(k)) && Retryable(script(k), true, retryCodes)
    ensures TotalCommits(script, start, end) == 0
  {
    if start < end {
      RetriedAttemptsCommitNothing(script, start, end - 1, retryCodes);
      assert Retryable(script(end - 1), true, retryCodes);
    }
  }

  /**
   A conversation item is committed at most once by one call, whatever the
   transport does and whatever statuses are retried; it is committed exactly
   when the last attempt is.
   */
  lemma ItemCommittedAtMostOnce(script: nat -> PostOutcome, start: nat, end: nat, maxAttempts: int, retryCodes: set<int>)
    requires forall k: nat :: Honest(script(k))
    requires IsCall(script, start, end, true, maxAttempts, retryCodes)
    ensures TotalCommits(script, start, end) == (if start == end then 0 else Commits(script(end - 1)))
    ensures TotalCommits(script, start, end) <= 1
  {
    if start < end {
      RetriedAttemptsCommitNothing(script, start, end - 1, retryCodes);
    }
  }

  ghost predicate HonestScript(script: nat -> PostOutcome) {
    forall k: nat :: Honest(script(k))
  }

  /** Whatever the transport does, no call of this kind commits its event more than once. */
  ghost predicate CommitsAtMostOnce(item: bool, maxAttempts: int, retryCodes: set<int>) {
    forall script: nat -> PostOutcome, start: nat, end: nat
      | HonestScript(script) && IsCall(script, start, end, item, maxAttempts, retryCodes) ::
      TotalCommits(script, start, end) <= 1
  }

  /** Exactly conversation items are protected: any other event may be committed again by a second attempt. */
  lemma ProtectedExactly(item: bool, maxAttempts: int, retryCodes: set<int>)
    ensures CommitsAtMostOnce(item, maxAttempts, retryCodes) <==> item || maxAttempts <= 1
  {
    if item || maxAttempts <= 1 {
      forall script: nat -> PostOutcome, start: nat, end: nat
        | HonestScript(script) && IsCall(script, start, end, item, maxAttempts, retryCodes)
        ensures TotalCommits(script, start, end) <= 1
      {
        if item {
          ItemCommittedAtMostOnce(script, start, end, maxAttempts, retryCodes);
        } else if start < end {
          assert TotalCommits(script, start, start) == 0;
        }
      }
    } else {
      var script := LostThenAccepted(maxAttempts, retryCodes);
      assert HonestScript(script) && IsCall(script, 0, 2, item, maxAttempts, retryCodes);
    }
  }

  /** The first response is lost after a commit, the second attempt is accepted. */
  lemma LostThenAccepted(maxAttempts: int, retryCodes: set<int>) returns (script: nat -> PostOutcome)
    requires maxAttempts > 1
    ensures HonestScript(script) && IsCall(script, 0, 2, false, maxAttempts, retryCodes)
    ensures TotalCommits(script, 0, 2) == 2
  {
    script := k => if k == 0 then Raised(OtherTransportError("ReadTimeout"), true) else Responded(200);
    assert TotalCommits(script, 0, 2) == TotalCommits(script, 0, 1) + Commits(script(1));
    assert TotalCommits(script, 0, 1) == TotalCommits(script, 0, 0) + Commits(script(0));
    assert Retryable(script(0), false, retryCodes) && !Retryable(script(1), false, retryCodes);
  }

  class EventServer {
    const script: nat -> PostOutcome
    var posts: nat
    ghost var commits: nat

    constructor (script: nat -> PostOutcome)
      ensures this.script == script && posts == 0 && commits == 0
    {
      this.script := script;
      posts := 0;
      commits := 0;
    }

    method Post() returns (o: PostOutcome)
      modifies this
      ensures o == script(old(posts))
      ensures posts == old(posts) + 1 && commits == old(commits) + Commits(o)
    {
      o := script(posts);
      posts := posts + 1;
      commits := commits + Commits(o);
    }
  }

  method PostSessionEventWithRetry(server: EventServer, health: HealthSlot<HttpError>, eventType: string,
                                   maxAttempts: int, retryCodes: set<int>, now: int)
    returns (response: Option<int>)
    modifies server, health
    ensures IsCall(server.script, old(server.posts), server.posts, eventType == ITEM_EVENT, maxAttempts, retryCodes)
    ensures server.commits == old(server.commits) + TotalCommits(server.script, old(server.posts), server.posts)
    ensures eventType == ITEM_EVENT && (forall k: nat :: Honest(server.script(k)))
            ==> server.commits <= old(server.commits) + 1
    // the response handed back is that of the last attempt
    ensures response.Some? <==> maxAttempts > 0 && server.script(server.posts - 1).Responded?
    ensures response.Some? ==> response.value == server.script(server.posts - 1).status
    // the health slot: a transport failure that ran out of attempts fills it, any response empties it
    ensures health.lastPostFailure ==
            if maxAttempts > 0 && server.script(server.posts - 1).Raised?
               && Retryable(server.script(server.posts - 1), eventType == ITEM_EVENT, retryCodes)
            then Some(Failure(now, eventType, server.script(server.posts - 1).error))
            else if SawResponse(server.script, old(server.posts), server.posts) then None
            else old(health.lastPostFailure)
  {
    ghost var item := eventType == ITEM_EVENT;
    ghost var start := server.posts;
    var attempt := 1;
    response := None;
    while attempt <= maxAttempts
      invariant 1 <= attempt && (maxAttempts > 0 ==> attempt <= maxAttempts)
      invariant maxAttempts <= 0 ==> attempt == 1
      invariant server.posts == start + attempt - 1
      invariant server.commits == old(server.commits) + TotalCommits(server.script, start, server.posts)
      invariant AllRetryable(server.script, start, server.posts, item, retryCodes)
      invariant health.lastPostFailure ==
                if SawResponse(server.script, start, server.posts) then None else old(health.lastPostFailure)
      invariant response == None
    {
      var outcome := server.Post();
      SawSnoc(server.script, start, server.posts);
      RetryableSnoc(server.script, start, server.posts, item, retryCodes);
      if outcome.Raised? {
        if eventType == ITEM_EVENT && MayHaveBeenDelivered(outcome.error) {
          break;
        }
        if attempt >= maxAttempts {
          health.RecordPostFailure(now, eventType, outcome.error);
          break;
        }
        attempt := attempt + 1;
        continue;
      }
      health.NotePostSuccess();
      if outcome.status < 400 {
        response := Some(outcome.status);
        break;
      }
      if outcome.status !in retryCodes {
        response := Some(outcome.status);
        break;
      }
      if attempt >= maxAttempts {
        response := Some(outcome.status);
        break;
      }
      attempt := attempt + 1;
    }
    CallEnds(server.script, start, server.posts, item, maxAttempts, retryCodes);
  }

  ghost predicate AllRetryable(script: nat -> PostOutcome, start: nat, end: nat, item: bool, retryCodes: set<int>) {
    forall k: nat | start <= k < end :: Retryable(script(k), item, retryCodes)
  }

  lemma RetryableSnoc(script: nat -> PostOutcome, start: nat, end: nat, item: bool, retryCodes: set<int>)
    requires start < end
    ensures AllRetryable(script, start, end, item, retryCodes)
            <==> AllRetryable(script, start, end - 1, item, retryCodes) && Retryable(script(end - 1), item, retryCodes)
  {
  }

  lemma SawSnoc(script: nat -> PostOutcome, start: nat, end: nat)
    requires start < end
    ensures SawResponse(script, start, end) <==> SawResponse(script, start, end - 1) || script(end - 1).Responded?
  {
  }

  /** Closing step of the loop: the attempts made form a call, and an item was committed at most once. */
  lemma CallEnds(script: nat -> PostOutcome, start: nat, end: nat, item: bool, maxAttempts: int, retryCodes: set<int>)
    requires start <= end
    requires start == end <==> maxAttempts <= 0
    requires start < end ==> end - start <= maxAttempts
    requires start < end ==> AllRetryable(script, start, end - 1, item, retryCodes)
    requires start < end < start + maxAttempts ==> !Retryable(script(end - 1), item, retryCodes)
    ensures IsCall(script, start, end, item, maxAttempts, retryCodes)
    ensures item && (forall k: nat :: Honest(script(k))) ==> TotalCommits(script, start, end) <= 1
  {
    if item && (forall k: nat :: Honest(script(k))) {
      ItemCommittedAtMostOnce(script, start, end, maxAttempts, retryCodes);
    }
  }
}
