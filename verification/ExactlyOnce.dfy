/**
 Whatever mix of stream and poll delivers the steps, and however often it
 repeats them, the reader posts what one pass over the first settled sighting
 of each step key would post.
 */
module ExactlyOnce {
  import opened Wrappers
  import opened CallIds
  import opened Steps
  import opened StepKeys
  import opened Reader

  // ----- the reference: each settled key once, in order, with no record of what was seen -----

  function SettledKeys(xs: seq<Sighting>): set<Key> {
    set x | x in xs && IsSettled(x.step) :: StepKey(x.step)
  }

  /** The sighting is settled and no earlier one settled the same key. */
  predicate IsFirst(xs: seq<Sighting>, i: nat)
    requires i < |xs|
  {
    IsSettled(xs[i].step) && StepKey(xs[i].step) !in SettledKeys(xs[..i])
  }

  function FirstSettled(xs: seq<Sighting>): seq<Step> {
    if xs == [] then []
    else FirstSettled(xs[..|xs| - 1]) + (if IsFirst(xs, |xs| - 1) then [xs[|xs| - 1].step] else [])
  }

  function Mirror(cascade: string, steps: seq<Step>, fetched: Catalog): Effect {
    if steps == [] then Effect(FreshCore(cascade), [])
    else
      var before := Mirror(cascade, steps[..|steps| - 1], fetched);
      var e := CommitEffect(before.core, steps[|steps| - 1], fetched);
      Effect(e.core, before.events + e.events)
  }

  predicate IsDelta(e: Event) {
    e.TextDelta? || e.ReasoningDelta?
  }

  function NonDelta(events: seq<Event>): seq<Event> {
    if events == [] then []
    else NonDelta(events[..|events| - 1]) + (if IsDelta(events[|events| - 1]) then [] else [events[|events| - 1]])
  }

  lemma {:induction false} NonDeltaConcat(a: seq<Event>, b: seq<Event>)
    ensures NonDelta(a + b) == NonDelta(a) + NonDelta(b)
  {
    if b == [] {
      assert a + b == a;
    } else {
      assert (a + b)[..|a + b| - 1] == a + b[..|b| - 1];
      NonDeltaConcat(a, b[..|b| - 1]);
    }
  }

  lemma {:induction false} NonDeltaAll(events: seq<Event>)
    requires forall e | e in events :: !IsDelta(e)
    ensures NonDelta(events) == events
  {
    if events != [] {
      NonDeltaAll(events[..|events| - 1]);
      assert events[|events| - 1] in events;
    }
  }

  // ----- one step -----

  lemma {:induction false} CallEventsAreCalls(calls: seq<ToolCall>, n: nat, step: int, a: Allocator)
    requires n <= |calls|
    ensures forall e | e in CallEvents(calls, n, step, a).events :: e.FunctionCall?
  {
    if n > 0 {
      CallEventsAreCalls(calls, n - 1, step, a);
    }
  }

  predicate IsItem(e: Event) {
    e.UserMessage? || e.AssistantMessage? || e.FunctionCall? || e.FunctionCallOutput?
  }

  lemma MapStepGivesItems(s: Step, a: Allocator)
    ensures forall e | e in MapStep(s, a).events :: IsItem(e)
  {
    if s.planner.Some? {
      var calls := s.planner.value.toolCalls;
      CallEventsAreCalls(calls, |calls|, StepIndexOr0(s), a);
    }
  }

  predicate IsTelemetry(e: Event) {
    e.ModelChange? || e.SessionUsage?
  }

  /** A commit posts an opening edge, items, a closing edge and telemetry, in that order. */
  lemma CommitShape(c: Core, s: Step, fetched: Catalog) returns (telemetry: seq<Event>)
    ensures CommitEffect(c, s, fetched).events
            == Opening(c.turnActive, s) + MapStep(s, c.allocator).events + Closing(c.turnActive, s) + telemetry
    ensures CommitEffect(c, s, fetched).core.turnActive == StillActive(c.turnActive, s)
    ensures forall e | e in telemetry :: IsTelemetry(e)
    ensures forall e | e in MapStep(s, c.allocator).events :: IsItem(e)
  {
    var e1 := EmitEffect(c, s);
    var e2 := ModelEffect(e1.core, s, fetched);
    var e3 := UsageEffect(e2.core, s, fetched);
    telemetry := e2.events + e3.events;
    MapStepGivesItems(s, c.allocator);
  }

  lemma CommitPostsNoDelta(c: Core, s: Step, fetched: Catalog)
    ensures NonDelta(CommitEffect(c, s, fetched).events) == CommitEffect(c, s, fetched).events
  {
    var telemetry := CommitShape(c, s, fetched);
    NonDeltaAll(CommitEffect(c, s, fetched).events);
  }

  /** A step that is not settled may be sighted any number of times: it commits nothing. */
  lemma UnsettledCommitsNothing(c: Core, s: Step, fetched: Catalog)
    requires !IsSettled(s)
    ensures CommitEffect(c, s, fetched) == Effect(c, [])
  {
  }

  lemma ReasoningStepPostsDeltas(st: State, s: Step)
    ensures ReasoningStep(st, s).core == st.core && ReasoningStep(st, s).seen == st.seen
    ensures NonDelta(ReasoningStep(st, s).out) == NonDelta(st.out)
  {
    var out := ReasoningStep(st, s).out;
    assert out != st.out ==> out[..|out| - 1] == st.out;
  }

  lemma TextStepPostsDeltas(st: State, s: Step)
    ensures TextStep(st, s).core == st.core && TextStep(st, s).seen == st.seen
    ensures NonDelta(TextStep(st, s).out) == NonDelta(st.out)
  {
    var out := TextStep(st, s).out;
    assert out != st.out ==> out[..|out| - 1] == st.out;
  }

  /** What one sighting adds beyond deltas: its commit if it is settled and new, else nothing. */
  lemma SeeAdds(st: State, x: Sighting, fetched: Catalog)
    ensures var st' := See(st, x, fetched);
            var isNew := IsSettled(x.step) && StepKey(x.step) !in st.seen;
            var e := CommitEffect(st.core, x.step, fetched);
            && st'.core == (if isNew then e.core else st.core)
            && NonDelta(st'.out) == (if isNew then NonDelta(st.out) + e.events else NonDelta(st.out))
            && st'.seen == (if IsSettled(x.step) then st.seen + {StepKey(x.step)} else st.seen)
  {
    var s := x.step;
    if x.path.Streamed? && IsGeneratingPlanner(s) {
      ReasoningStepPostsDeltas(st, s);
      TextStepPostsDeltas(ReasoningStep(st, s), s);
    } else {
      CommitAdds(st, s, fetched);
    }
  }

  lemma CommitAdds(st: State, s: Step, fetched: Catalog)
    ensures var st' := Commit(st, s, fetched);
            var isNew := IsSettled(s) && StepKey(s) !in st.seen;
            var e := CommitEffect(st.core, s, fetched);
            && st'.core == (if isNew then e.core else st.core)
            && NonDelta(st'.out) == (if isNew then NonDelta(st.out) + e.events else NonDelta(st.out))
            && st'.seen == (if IsSettled(s) then st.seen + {StepKey(s)} else st.seen)
  {
    if !IsSettled(s) {
      UnsettledCommitsNothing(st.core, s, fetched);
      assert st.out + [] == st.out;
    } else if StepKey(s) !in st.seen {
      NonDeltaConcat(st.out, CommitEffect(st.core, s, fetched).events);
      CommitPostsNoDelta(st.core, s, fetched);
    }
  }

  // ----- every run -----

  lemma SettledKeysSnoc(init: seq<Sighting>, x: Sighting)
    ensures SettledKeys(init + [x]) == SettledKeys(init) + (if IsSettled(x.step) then {StepKey(x.step)} else {})
  {
    assert forall y :: y in init + [x] <==> y in init || y == x;
  }

  lemma FirstSettledSnoc(init: seq<Sighting>, x: Sighting)
    ensures FirstSettled(init + [x])
            == if IsFirst(init + [x], |init|) then FirstSettled(init) + [x.step] else FirstSettled(init)
  {
    assert (init + [x])[..|init|] == init;
  }

  lemma MirrorSnoc(cascade: string, steps: seq<Step>, s: Step, fetched: Catalog)
    ensures var before := Mirror(cascade, steps, fetched);
            var e := CommitEffect(before.core, s, fetched);
            Mirror(cascade, steps + [s], fetched) == Effect(e.core, before.events + e.events)
  {
    assert (steps + [s])[..|steps|] == steps;
  }

  /** Deltas aside, the state is what the reference pass comes to, and its keys are those settled. */
  ghost predicate Matches(st: State, m: Effect, xs: seq<Sighting>) {
    NonDelta(st.out) == m.events && st.core == m.core && st.seen == SettledKeys(xs)
  }

  /**
   For any sequence of sightings, stream and poll mixed at will: the events
   other than deltas, and every tracker they depend on, are those of one pass
   over the first settled sighting of each key.
   */
  lemma {:induction false} EachKeyCommitsOnce(cascade: string, xs: seq<Sighting>, fetched: Catalog)
    ensures Matches(SeeAll(FreshState(cascade), xs, fetched), Mirror(cascade, FirstSettled(xs), fetched), xs)
  {
    if xs != [] {
      var init, x := xs[..|xs| - 1], xs[|xs| - 1];
      EachKeyCommitsOnce(cascade, init, fetched);
      assert xs == init + [x];
      NextSighting(cascade, init, x, fetched);
    }
  }

  lemma NextSighting(cascade: string, init: seq<Sighting>, x: Sighting, fetched: Catalog)
    requires Matches(SeeAll(FreshState(cascade), init, fetched), Mirror(cascade, FirstSettled(init), fetched), init)
    ensures Matches(SeeAll(FreshState(cascade), init + [x], fetched), Mirror(cascade, FirstSettled(init + [x]), fetched),
                    init + [x])
  {
    var before, m := SeeAll(FreshState(cascade), init, fetched), Mirror(cascade, FirstSettled(init), fetched);
    assert (init + [x])[..|init|] == init;
    assert IsFirst(init + [x], |init|) <==> IsSettled(x.step) && StepKey(x.step) !in before.seen;
    SeeAdds(before, x, fetched);
    SettledKeysSnoc(init, x);
    FirstSettledSnoc(init, x);
    MirrorSnoc(cascade, FirstSettled(init), x.step, fetched);
  }

  /** The reference pass takes sighted, settled steps with distinct keys, and misses no settled key. */
  lemma {:induction false} FirstSettledKeys(xs: seq<Sighting>)
    ensures var firsts := FirstSettled(xs);
            && (forall s | s in firsts :: IsSettled(s) && exists x :: x in xs && x.step == s)
            && (forall a, b | 0 <= a < b < |firsts| :: StepKey(firsts[a]) != StepKey(firsts[b]))
            && (set s | s in firsts :: StepKey(s)) == SettledKeys(xs)
  {
    if xs != [] {
      var init, x := xs[..|xs| - 1], xs[|xs| - 1];
      FirstSettledKeys(init);
      var before, firsts := FirstSettled(init), FirstSettled(xs);
      assert xs == init + [x];
      SettledKeysSnoc(init, x);
      assert forall s :: s in firsts <==> s in before || (IsFirst(xs, |xs| - 1) && s == x.step);
      forall s | s in firsts
        ensures exists y :: y in xs && y.step == s
      {
        if s in before {
          var y :| y in init && y.step == s;
          assert y in xs;
        } else {
          assert x in xs;
        }
      }
      forall a, b | 0 <= a < b < |firsts|
        ensures StepKey(firsts[a]) != StepKey(firsts[b])
      {
        assert before[a] in before && StepKey(before[a]) in SettledKeys(init);
      }
    }
  }

  /** The path a step is sighted on, repetition and unsettled sightings make no difference. */
  lemma SameFirstsSameEvents(cascade: string, xs: seq<Sighting>, ys: seq<Sighting>, fetched: Catalog)
    requires FirstSettled(xs) == FirstSettled(ys)
    ensures NonDelta(SeeAll(FreshState(cascade), xs, fetched).out) == NonDelta(SeeAll(FreshState(cascade), ys, fetched).out)
  {
    EachKeyCommitsOnce(cascade, xs, fetched);
    EachKeyCommitsOnce(cascade, ys, fetched);
  }

  /** A replayed snapshot, or a poll after a stream, adds nothing unless it settles a new key. */
  lemma {:induction false} ReplayAddsNothing(st: State, ys: seq<Sighting>, fetched: Catalog)
    requires forall i | 0 <= i < |ys| :: !IsSettled(ys[i].step) || StepKey(ys[i].step) in st.seen
    ensures var st' := SeeAll(st, ys, fetched);
            NonDelta(st'.out) == NonDelta(st.out) && st'.core == st.core && st'.seen == st.seen
  {
    if ys != [] {
      var init := ys[..|ys| - 1];
      assert forall i | 0 <= i < |init| :: init[i] == ys[i];
      ReplayAddsNothing(st, init, fetched);
      SeeAdds(SeeAll(st, init, fetched), ys[|ys| - 1], fetched);
    }
  }

  // ----- telemetry -----

  /** What a step counts for: the positive counts of a completed planner step. */
  function TokensOf(s: Step): (nat, nat, nat) {
    if s.kind.PlannerResponse? && s.status.Done? && s.usage.Some?
    then (Positive(s.usage.value.input), Positive(s.usage.value.output), Positive(s.usage.value.cacheRead))
    else (0, 0, 0)
  }

  function Plus(a: (nat, nat, nat), b: (nat, nat, nat)): (nat, nat, nat) {
    (a.0 + b.0, a.1 + b.1, a.2 + b.2)
  }

  function TokenSum(steps: seq<Step>): (nat, nat, nat) {
    if steps == [] then (0, 0, 0) else Plus(TokenSum(steps[..|steps| - 1]), TokensOf(steps[|steps| - 1]))
  }

  function Totals(c: Core): (nat, nat, nat) {
    (c.input, c.output, c.cacheRead)
  }

  function LastUsage(events: seq<Event>): Option<Event> {
    if events == [] then None
    else if events[|events| - 1].SessionUsage? then Some(events[|events| - 1])
    else LastUsage(events[..|events| - 1])
  }

  lemma {:induction false} LastUsageConcat(a: seq<Event>, b: seq<Event>)
    ensures LastUsage(a + b) == if LastUsage(b).Some? then LastUsage(b) else LastUsage(a)
  {
    if b == [] {
      assert a + b == a;
    } else {
      assert (a + b)[..|a + b| - 1] == a + b[..|b| - 1];
      LastUsageConcat(a, b[..|b| - 1]);
    }
  }

  lemma {:induction false} NoUsage(events: seq<Event>)
    requires forall e | e in events :: !e.SessionUsage?
    ensures LastUsage(events) == None
  {
    if events != [] {
      assert events[|events| - 1] in events;
      NoUsage(events[..|events| - 1]);
    }
  }

  /** The event reports exactly these totals, a zero total by its absence. */
  predicate Reports(e: Option<Event>, totals: (nat, nat, nat)) {
    match e
    case None => totals == (0, 0, 0)
    case Some(u) => u.SessionUsage? && u.inputTokens == CountOrNone(totals.0) && u.outputTokens == CountOrNone(totals.1)
                    && u.cacheReadTokens == CountOrNone(totals.2)
  }

  lemma CommitTotals(c: Core, s: Step, fetched: Catalog)
    ensures Totals(CommitEffect(c, s, fetched).core) == Plus(Totals(c), TokensOf(s))
  {
  }

  lemma UsageReports(c: Core, s: Step, fetched: Catalog)
    ensures var e := UsageEffect(c, s, fetched);
            if UsageOf(s).None? then e.events == []
            else |e.events| == 1 && e.events[0].SessionUsage? && Reports(Some(e.events[0]), Totals(e.core))
  {
  }

  lemma CommitReports(c: Core, s: Step, fetched: Catalog)
    ensures var e := CommitEffect(c, s, fetched);
            if UsageOf(s).None? then LastUsage(e.events) == None
            else LastUsage(e.events).Some? && Reports(LastUsage(e.events), Totals(e.core))
  {
    var e1 := EmitEffect(c, s);
    var e2 := ModelEffect(e1.core, s, fetched);
    var e3 := UsageEffect(e2.core, s, fetched);
    UsageReports(e2.core, s, fetched);
    MapStepGivesItems(s, c.allocator);
    UsageLast(e1.events, e2.events, e3.events);
  }

  lemma UsageLast(emitted: seq<Event>, models: seq<Event>, usage: seq<Event>)
    requires forall e | e in emitted :: !e.SessionUsage?
    requires forall e | e in models :: !e.SessionUsage?
    ensures usage == [] ==> LastUsage(emitted + models + usage) == None
    ensures |usage| == 1 && usage[0].SessionUsage? ==> LastUsage(emitted + models + usage) == Some(usage[0])
  {
    NoUsage(emitted + models);
    LastUsageConcat(emitted + models, usage);
  }

  lemma ReportsSnoc(before: seq<Event>, posted: seq<Event>, totals: (nat, nat, nat), t: (nat, nat, nat), s: Step)
    requires Reports(LastUsage(before), totals) && t == Plus(totals, TokensOf(s))
    requires if UsageOf(s).None? then LastUsage(posted) == None
             else LastUsage(posted).Some? && Reports(LastUsage(posted), t)
    ensures Reports(LastUsage(before + posted), t)
  {
    LastUsageConcat(before, posted);
  }

  lemma {:induction false} MirrorTotals(cascade: string, steps: seq<Step>, fetched: Catalog)
    ensures Totals(Mirror(cascade, steps, fetched).core) == TokenSum(steps)
    ensures Reports(LastUsage(Mirror(cascade, steps, fetched).events), TokenSum(steps))
  {
    if steps != [] {
      var init, s := steps[..|steps| - 1], steps[|steps| - 1];
      MirrorTotals(cascade, init, fetched);
      var before := Mirror(cascade, init, fetched);
      CommitTotals(before.core, s, fetched);
      CommitReports(before.core, s, fetched);
      ReportsSnoc(before.events, CommitEffect(before.core, s, fetched).events, TokenSum(init), TokenSum(steps), s);
    }
  }

  lemma {:induction false} LastUsageIgnoresDeltas(events: seq<Event>)
    ensures LastUsage(NonDelta(events)) == LastUsage(events)
  {
    if events != [] {
      var init := events[..|events| - 1];
      LastUsageIgnoresDeltas(init);
      LastUsageConcat(NonDelta(init), if IsDelta(events[|events| - 1]) then [] else [events[|events| - 1]]);
    }
  }

  /**
   In any run the totals are sums over distinct completed planner steps, and
   the last report posted, which the server takes as the new total, is that sum.
   */
  lemma TotalsCountEachStepOnce(cascade: string, xs: seq<Sighting>, fetched: Catalog)
    ensures var st := SeeAll(FreshState(cascade), xs, fetched);
            && Totals(st.core) == TokenSum(FirstSettled(xs))
            && Reports(LastUsage(st.out), TokenSum(FirstSettled(xs)))
  {
    var st := SeeAll(FreshState(cascade), xs, fetched);
    EachKeyCommitsOnce(cascade, xs, fetched);
    MirrorTotals(cascade, FirstSettled(xs), fetched);
    LastUsageIgnoresDeltas(st.out);
  }

  /** The model the last user turn that named one asked for. */
  function LastRequested(steps: seq<Step>): Option<string> {
    if steps == [] then None
    else if RequestedModel(steps[|steps| - 1]).Some? then RequestedModel(steps[|steps| - 1])
    else LastRequested(steps[..|steps| - 1])
  }

  predicate AnnouncesModel(events: seq<Event>) {
    exists e :: e in events && e.ModelChange?
  }

  /** A model change is posted exactly when a user turn asks for another model than the last one asked for. */
  lemma {:induction false} ModelChangesExactly(cascade: string, steps: seq<Step>, s: Step, fetched: Catalog)
    ensures Mirror(cascade, steps, fetched).core.postedModel == LastRequested(steps)
    ensures AnnouncesModel(CommitEffect(Mirror(cascade, steps, fetched).core, s, fetched).events)
            <==> RequestedModel(s).Some? && RequestedModel(s) != LastRequested(steps)
  {
    if steps != [] {
      ModelChangesExactly(cascade, steps[..|steps| - 1], s, fetched);
      CommitModel(Mirror(cascade, steps[..|steps| - 1], fetched).core, steps[|steps| - 1], fetched);
    }
    CommitModel(Mirror(cascade, steps, fetched).core, s, fetched);
  }

  lemma CommitModel(c: Core, s: Step, fetched: Catalog)
    ensures var e := CommitEffect(c, s, fetched);
            && e.core.postedModel == (if RequestedModel(s).Some? then RequestedModel(s) else c.postedModel)
            && (AnnouncesModel(e.events) <==> RequestedModel(s).Some? && RequestedModel(s) != c.postedModel)
  {
    var e1 := EmitEffect(c, s);
    var e2 := ModelEffect(e1.core, s, fetched);
    var e3 := UsageEffect(e2.core, s, fetched);
    MapStepGivesItems(s, c.allocator);
    assert forall e | e in e1.events + e3.events :: !e.ModelChange?;
    assert forall e :: e in CommitEffect(c, s, fetched).events <==> e in e1.events + e3.events || e in e2.events;
    if e2.events != [] {
      assert e2.events[0] in e2.events;
    }
  }
}
