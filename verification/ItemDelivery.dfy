/**
 The reader's posts on the wire: every event goes through the bounded retry
 loop, whose server does no de-duplication.
 */
module ItemDelivery {
  import opened ForwarderHealth
  import opened PostDelivery
  import opened Steps
  import opened Reader
  import opened ExactlyOnce

  /** The session event type an event is posted under; items share one. */
  function EventType(e: Event): (r: string)
    ensures r == ITEM_EVENT <==> IsItem(e)
  {
    match e
    case StatusEdge(_) => "external_session_status"
    case TextDelta(_, _) => "external_output_text_delta"
    case ReasoningDelta(_, _, _) => "external_output_reasoning_delta"
    case SessionUsage(_, _, _, _, _) => "external_session_usage"
    case ModelChange(_, _) => "external_model_change"
    case _ => ITEM_EVENT
  }

  datatype Limits = Limits(maxAttempts: int, retryCodes: set<int>)

  /** `cuts` divides the POSTs into one call per event, in order. */
  ghost predicate DividesIntoCalls(script: nat -> PostOutcome, events: seq<Event>, limits: Limits, cuts: seq<nat>) {
    && |cuts| == |events| + 1
    && forall i: nat | i < |events| ::
         IsCall(script, cuts[i], cuts[i + 1], IsItem(events[i]), limits.maxAttempts, limits.retryCodes)
  }

  lemma DivideSnoc(script: nat -> PostOutcome, events: seq<Event>, e: Event, limits: Limits, cuts: seq<nat>, end: nat)
    requires DividesIntoCalls(script, events, limits, cuts)
    requires IsCall(script, cuts[|events|], end, IsItem(e), limits.maxAttempts, limits.retryCodes)
    ensures DividesIntoCalls(script, events + [e], limits, cuts + [end])
  {
    var longer, ends := events + [e], cuts + [end];
    forall i: nat | i < |longer|
      ensures IsCall(script, ends[i], ends[i + 1], IsItem(longer[i]), limits.maxAttempts, limits.retryCodes)
    {
      if i < |events| {
        assert longer[i] == events[i] && ends[i] == cuts[i] && ends[i + 1] == cuts[i + 1];
      }
    }
  }

  /** `_post_event` for each event of a run, in the order the reader emits them. */
  method PostAll(server: EventServer, health: HealthSlot<HttpError>, events: seq<Event>, limits: Limits, now: nat -> int)
    returns (cuts: seq<nat>)
    modifies server, health
    ensures DividesIntoCalls(server.script, events, limits, cuts)
    ensures cuts[0] == old(server.posts) && cuts[|events|] == server.posts
  {
    cuts := [server.posts];
    for i := 0 to |events|
      invariant DividesIntoCalls(server.script, events[..i], limits, cuts)
      invariant cuts[0] == old(server.posts) && cuts[i] == server.posts
    {
      var response :=
        PostSessionEventWithRetry(server, health, EventType(events[i]), limits.maxAttempts, limits.retryCodes, now(i));
      DivideSnoc(server.script, events[..i], events[i], limits, cuts, server.posts);
      assert events[..i + 1] == events[..i] + [events[i]];
      cuts := cuts + [server.posts];
    }
    assert events[..|events|] == events;
  }

  function ItemsOf(events: seq<Event>): seq<Event> {
    if events == [] then []
    else ItemsOf(events[..|events| - 1]) + (if IsItem(events[|events| - 1]) then [events[|events| - 1]] else [])
  }

  datatype Arrival = Arrival(item: Event, commits: nat)

  ghost predicate InOrder(cuts: seq<nat>) {
    forall i | 0 <= i < |cuts| - 1 :: cuts[i] <= cuts[i + 1]
  }

  /** The items among the events, each with how often the server committed it. */
  ghost function Arrivals(script: nat -> PostOutcome, events: seq<Event>, cuts: seq<nat>): seq<Arrival>
    requires |cuts| == |events| + 1 && InOrder(cuts)
  {
    if events == [] then []
    else
      var n := |events| - 1;
      Arrivals(script, events[..n], cuts[..n + 1])
      + (if IsItem(events[n]) then [Arrival(events[n], TotalCommits(script, cuts[n], cuts[n + 1]))] else [])
  }

  lemma CallsInOrder(script: nat -> PostOutcome, events: seq<Event>, limits: Limits, cuts: seq<nat>)
    requires DividesIntoCalls(script, events, limits, cuts)
    ensures InOrder(cuts)
  {
    forall i: nat | i < |events| ensures cuts[i] <= cuts[i + 1] {
      assert IsCall(script, cuts[i], cuts[i + 1], IsItem(events[i]), limits.maxAttempts, limits.retryCodes);
    }
  }

  function Arrived(arrivals: seq<Arrival>): seq<Event> {
    seq(|arrivals|, i requires 0 <= i < |arrivals| => arrivals[i].item)
  }

  lemma {:induction false} EachArrivesOnce(script: nat -> PostOutcome, events: seq<Event>, limits: Limits, cuts: seq<nat>)
    requires HonestScript(script) && DividesIntoCalls(script, events, limits, cuts) && InOrder(cuts)
    ensures Arrived(Arrivals(script, events, cuts)) == ItemsOf(events)
    ensures forall a | a in Arrivals(script, events, cuts) :: a.commits <= 1
  {
    if events != [] {
      var n := |events| - 1;
      assert DividesIntoCalls(script, events[..n], limits, cuts[..n + 1]) by {
        DivideInit(script, events, limits, cuts);
      }
      CallsInOrder(script, events[..n], limits, cuts[..n + 1]);
      EachArrivesOnce(script, events[..n], limits, cuts[..n + 1]);
      assert IsCall(script, cuts[n], cuts[n + 1], IsItem(events[n]), limits.maxAttempts, limits.retryCodes);
      if IsItem(events[n]) {
        ItemCommittedAtMostOnce(script, cuts[n], cuts[n + 1], limits.maxAttempts, limits.retryCodes);
      }
    }
  }

  lemma DivideInit(script: nat -> PostOutcome, events: seq<Event>, limits: Limits, cuts: seq<nat>)
    requires DividesIntoCalls(script, events, limits, cuts) && events != []
    ensures DividesIntoCalls(script, events[..|events| - 1], limits, cuts[..|events|])
  {
    var n := |events| - 1;
    forall i: nat | i < n
      ensures IsCall(script, cuts[..n + 1][i], cuts[..n + 1][i + 1], IsItem(events[..n][i]),
                     limits.maxAttempts, limits.retryCodes)
    {
      assert IsCall(script, cuts[i], cuts[i + 1], IsItem(events[i]), limits.maxAttempts, limits.retryCodes);
    }
  }

  lemma {:induction false} ItemsOfConcat(a: seq<Event>, b: seq<Event>)
    ensures ItemsOf(a + b) == ItemsOf(a) + ItemsOf(b)
  {
    if b == [] {
      assert a + b == a;
    } else {
      assert (a + b)[..|a + b| - 1] == a + b[..|b| - 1];
      ItemsOfConcat(a, b[..|b| - 1]);
    }
  }

  lemma {:induction false} ItemsIgnoreDeltas(events: seq<Event>)
    ensures ItemsOf(NonDelta(events)) == ItemsOf(events)
  {
    if events != [] {
      var init := events[..|events| - 1];
      ItemsIgnoreDeltas(init);
      ItemsOfConcat(NonDelta(init), if IsDelta(events[|events| - 1]) then [] else [events[|events| - 1]]);
    }
  }

  /**
   From agy to the server: for any run of sightings and any honest transport,
   the conversation items that reach the retry loop are those of the first
   settled sighting of each key, in order, and each is committed at most once.
   */
  lemma ItemsCommittedAtMostOnce(cascade: string, xs: seq<Sighting>, fetched: Catalog,
                                 script: nat -> PostOutcome, limits: Limits, cuts: seq<nat>)
    requires HonestScript(script)
    requires DividesIntoCalls(script, SeeAll(FreshState(cascade), xs, fetched).out, limits, cuts)
    ensures InOrder(cuts)
    ensures var arrivals := Arrivals(script, SeeAll(FreshState(cascade), xs, fetched).out, cuts);
            && Arrived(arrivals) == ItemsOf(Mirror(cascade, FirstSettled(xs), fetched).events)
            && forall a | a in arrivals :: a.commits <= 1
  {
    var out := SeeAll(FreshState(cascade), xs, fetched).out;
    CallsInOrder(script, out, limits, cuts);
    EachArrivesOnce(script, out, limits, cuts);
    EachKeyCommitsOnce(cascade, xs, fetched);
    ItemsIgnoreDeltas(out);
  }
}
