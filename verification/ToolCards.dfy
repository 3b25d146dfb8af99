/** No tool card is left open: what a run posts for the calls and the results of its tools. */
module ToolCards {
  import opened Wrappers
  import opened Sequences
  import opened CallIds
  import opened Steps
  import opened StepKeys
  import opened Reader
  import opened ExactlyOnce
  import opened StepPosts

  function CallIdsIn(steps: seq<Step>): seq<string> {
    if steps == [] then [] else CallIdsIn(steps[..|steps| - 1]) + StepCallIds(steps[|steps| - 1])
  }

  function OutputIdsIn(steps: seq<Step>): seq<string> {
    if steps == [] then [] else OutputIdsIn(steps[..|steps| - 1]) + StepOutputIds(steps[|steps| - 1])
  }

  lemma {:induction false} IdsIgnoreDeltas(events: seq<Event>)
    ensures CallIdsOf(NonDelta(events)) == CallIdsOf(events)
    ensures OutputIdsOf(NonDelta(events)) == OutputIdsOf(events)
  {
    if events != [] {
      var init := events[..|events| - 1];
      IdsIgnoreDeltas(init);
      IdsOfConcat(NonDelta(init), if IsDelta(events[|events| - 1]) then [] else [events[|events| - 1]]);
    }
  }

  lemma {:induction false} NoIds(events: seq<Event>)
    requires forall e | e in events :: !e.FunctionCall? && !e.FunctionCallOutput?
    ensures CallIdsOf(events) == [] && OutputIdsOf(events) == []
  {
    if events != [] {
      assert events[|events| - 1] in events;
      NoIds(events[..|events| - 1]);
    }
  }

  lemma IdsAround(head: seq<Event>, items: seq<Event>, tail: seq<Event>, telemetry: seq<Event>)
    requires forall e | e in head :: e.StatusEdge?
    requires forall e | e in tail :: e.StatusEdge?
    requires forall e | e in telemetry :: IsTelemetry(e)
    ensures CallIdsOf(head + items + tail + telemetry) == CallIdsOf(items)
    ensures OutputIdsOf(head + items + tail + telemetry) == OutputIdsOf(items)
  {
    NoIds(head);
    NoIds(tail);
    NoIds(telemetry);
    IdsOfConcat(head, items);
    IdsOfConcat(head + items, tail);
    IdsOfConcat(head + items + tail, telemetry);
  }

  /** A commit's calls and outputs are those of the step's mapping. */
  lemma CommitMapsIds(c: Core, s: Step, fetched: Catalog)
    ensures CallIdsOf(CommitEffect(c, s, fetched).events) == CallIdsOf(MapStep(s, c.allocator).events)
    ensures OutputIdsOf(CommitEffect(c, s, fetched).events) == OutputIdsOf(MapStep(s, c.allocator).events)
  {
    var telemetry := CommitShape(c, s, fetched);
    IdsAround(Opening(c.turnActive, s), MapStep(s, c.allocator).events, Closing(c.turnActive, s), telemetry);
  }

  lemma CommitAllocates(c: Core, s: Step, fetched: Catalog)
    ensures CommitEffect(c, s, fetched).core.allocator == MapStep(s, c.allocator).allocator
  {
  }

  lemma {:induction false} MirrorIds(cascade: string, steps: seq<Step>, fetched: Catalog)
    requires forall s | s in steps :: HasAgyIds(s)
    ensures CallIdsOf(Mirror(cascade, steps, fetched).events) == CallIdsIn(steps)
    ensures OutputIdsOf(Mirror(cascade, steps, fetched).events) == OutputIdsIn(steps)
  {
    if steps != [] {
      var init, s := steps[..|steps| - 1], steps[|steps| - 1];
      assert s in steps;
      MirrorIds(cascade, init, fetched);
      var before := Mirror(cascade, init, fetched);
      CommitMapsIds(before.core, s, fetched);
      MapStepIds(s, before.core.allocator);
      IdsOfConcat(before.events, CommitEffect(before.core, s, fetched).events);
    }
  }

  /** A DONE or ERROR result that agy stamped with the id closes the call of that id. */
  predicate Closes(s: Step, id: string) {
    && s.kind in {RunCommand, ListDirectory, AskQuestion, OtherType}
    && (s.status.Done? || s.status.Error?)
    && s.toolCallId == Some(id) && id != ""
  }

  lemma ClosesExactly(s: Step, id: string)
    ensures Closes(s, id) <==> StepOutputIds(s) == [id]
  {
    assert StepOutputIds(s) == [] || StepOutputIds(s) == [s.toolCallId.value];
  }

  function Occurrences(ids: seq<string>, id: string): nat {
    if ids == [] then 0 else Occurrences(ids[..|ids| - 1], id) + (if ids[|ids| - 1] == id then 1 else 0)
  }

  function ClosersIn(steps: seq<Step>, id: string): nat {
    if steps == [] then 0 else ClosersIn(steps[..|steps| - 1], id) + (if Closes(steps[|steps| - 1], id) then 1 else 0)
  }

  lemma OutputIdsSnoc(steps: seq<Step>)
    requires steps != []
    ensures OutputIdsIn(steps)
            == if StepOutputIds(steps[|steps| - 1]) == [] then OutputIdsIn(steps[..|steps| - 1])
               else OutputIdsIn(steps[..|steps| - 1]) + [StepOutputIds(steps[|steps| - 1])[0]]
  {
  }

  lemma {:induction false} OneOutputPerResult(steps: seq<Step>, id: string)
    ensures Occurrences(OutputIdsIn(steps), id) == ClosersIn(steps, id)
  {
    if steps != [] {
      OneOutputPerResult(steps[..|steps| - 1], id);
      OutputIdsSnoc(steps);
      ClosesExactly(steps[|steps| - 1], id);
      var ids := OutputIdsIn(steps);
      if StepOutputIds(steps[|steps| - 1]) != [] {
        assert ids[..|ids| - 1] == OutputIdsIn(steps[..|steps| - 1]);
      }
    }
  }

  lemma {:induction false} ClosedIsOutput(steps: seq<Step>, s: Step, id: string)
    requires s in steps && Closes(s, id)
    ensures id in OutputIdsIn(steps)
  {
    OutputIdsSnoc(steps);
    ClosesExactly(s, id);
    if s in steps[..|steps| - 1] {
      ClosedIsOutput(steps[..|steps| - 1], s, id);
    } else {
      assert s == steps[|steps| - 1];
    }
  }

  /** No two sightings that finish one step disagree about the call it closes, whatever was sighted before. */
  ghost predicate ResultsStable(xs: seq<Sighting>) {
    forall x, y | x in xs && y in xs && Finished(x.step) && Finished(y.step) && SameStep(x.step, y.step) ::
      forall id :: Closes(x.step, id) <==> Closes(y.step, id)
  }

  /** The first sighting that finishes the step closes the call too. */
  lemma FirstCloser(xs: seq<Sighting>, x: Sighting, id: string) returns (s: Step)
    requires ResultsStable(xs) && x in xs && Closes(x.step, id)
    ensures s in FirstSettled(xs) && Closes(s, id)
  {
    FirstSettledKeys(xs);
    assert StepKey(x.step) in SettledKeys(xs);
    s :| s in FirstSettled(xs) && StepKey(s) == StepKey(x.step);
    var y :| y in xs && y.step == s;
    SameKeyExactly(x.step, s);
  }

  /**
   With agy ids on both ends, the calls and outputs of any run are those of
   its distinct settled steps, in order, and every id is output as often as
   distinct result steps close it. So once a result step has been sighted DONE
   or ERROR, with or without an extractor for its type, its call has an output.
   */
  lemma NoStrandedCard(cascade: string, xs: seq<Sighting>, fetched: Catalog, id: string)
    requires forall x | x in xs :: HasAgyIds(x.step)
    requires ResultsStable(xs)
    ensures var out := SeeAll(FreshState(cascade), xs, fetched).out;
            && CallIdsOf(out) == CallIdsIn(FirstSettled(xs))
            && Occurrences(OutputIdsOf(out), id) == ClosersIn(FirstSettled(xs), id)
            && ((exists x :: x in xs && Closes(x.step, id)) ==> id in OutputIdsOf(out))
  {
    var out, firsts := SeeAll(FreshState(cascade), xs, fetched).out, FirstSettled(xs);
    FirstSettledKeys(xs);
    EachKeyCommitsOnce(cascade, xs, fetched);
    MirrorIds(cascade, firsts, fetched);
    IdsIgnoreDeltas(out);
    OneOutputPerResult(firsts, id);
    if x :| x in xs && Closes(x.step, id) {
      var s := FirstCloser(xs, x, id);
      ClosedIsOutput(firsts, s, id);
    }
  }

  // ----- without agy ids -----

  predicate HasNoAgyIds(s: Step) {
    && (s.planner.Some? ==> forall c | c in s.planner.value.toolCalls :: Mirrored(c) ==> NonEmpty(c.id).None?)
    && NonEmpty(s.toolCallId).None?
  }

  function CallUses(calls: seq<ToolCall>): seq<Use> {
    if calls == [] then []
    else CallUses(calls[..|calls| - 1]) + (if Mirrored(calls[|calls| - 1]) then [Invocation] else [])
  }

  /** The uses a step makes of the fallback allocator. */
  function UsesOf(s: Step): seq<Use> {
    if s.kind.PlannerResponse? then
      if s.status.Done? && s.planner.Some? then CallUses(s.planner.value.toolCalls) else []
    else if IsToolResult(s) && IsTerminal(s) then [Result]
    else []
  }

  function UsesIn(steps: seq<Step>): seq<Use> {
    if steps == [] then [] else UsesIn(steps[..|steps| - 1]) + UsesOf(steps[|steps| - 1])
  }

  /** Running on from a history: the mapping's allocator, and its ids added. */
  predicate Continues(h: History, m: Mapping, h': History) {
    h' == History(m.allocator, h.calls + CallIdsOf(m.events), h.outputs + OutputIdsOf(m.events))
  }

  lemma RunSnoc(cascade: string, uses: seq<Use>, use: Use)
    ensures var h := RunUses(cascade, uses);
            RunUses(cascade, uses + [use])
            == match use
               case Invocation => History(Claim(h.allocator).1, h.calls + [Claim(h.allocator).0], h.outputs)
               case Result => History(Match(h.allocator).1, h.calls, h.outputs + [Match(h.allocator).0])
  {
    assert (uses + [use])[..|uses|] == uses;
  }

  /** One more event: a call that claimed its id, or an output that matched one. */
  lemma ContinuesSnoc(h: History, m: Mapping, h1: History, e: Event, a: Allocator)
    requires Continues(h, m, h1)
    ensures e.FunctionCall? ==> Continues(h, Mapping(m.events + [e], a), History(a, h1.calls + [e.call], h1.outputs))
    ensures e.FunctionCallOutput? ==> Continues(h, Mapping(m.events + [e], a), History(a, h1.calls, h1.outputs + [e.call]))
  {
    OneId(e);
    IdsOfConcat(m.events, [e]);
  }

  lemma CallUsesTake(calls: seq<ToolCall>, n: nat)
    requires 0 < n <= |calls|
    ensures CallUses(calls[..n])
            == if Mirrored(calls[n - 1]) then CallUses(calls[..n - 1]) + [Invocation] else CallUses(calls[..n - 1])
  {
    assert calls[..n][..n - 1] == calls[..n - 1];
  }

  /** The last of `n` calls without agy ids claims the next fallback id, if it is mirrored. */
  lemma CallEventsClaim(calls: seq<ToolCall>, n: nat, step: int, a: Allocator)
    requires 0 < n <= |calls| && (Mirrored(calls[n - 1]) ==> NonEmpty(calls[n - 1].id).None?)
    ensures var c, before, after := calls[n - 1], CallEvents(calls, n - 1, step, a), CallEvents(calls, n, step, a);
            if !Mirrored(c) then after == before
            else after == Mapping(before.events + [FunctionCall(Claim(before.allocator).0, c.name.value,
                                                                VisibleArguments(c.args), step)],
                                  Claim(before.allocator).1)
  {
  }

  lemma {:induction false} CallEventsUse(cascade: string, uses: seq<Use>, calls: seq<ToolCall>, n: nat, step: int)
    requires n <= |calls| && forall c | c in calls :: Mirrored(c) ==> NonEmpty(c.id).None?
    ensures var h := RunUses(cascade, uses);
            Continues(h, CallEvents(calls, n, step, h.allocator), RunUses(cascade, uses + CallUses(calls[..n])))
  {
    if n == 0 {
      assert uses + CallUses(calls[..0]) == uses;
    } else {
      assert calls[n - 1] in calls;
      CallEventsUse(cascade, uses, calls, n - 1, step);
      LastCallUse(cascade, uses, calls, n, step);
    }
  }

  lemma LastCallUse(cascade: string, uses: seq<Use>, calls: seq<ToolCall>, n: nat, step: int)
    requires 0 < n <= |calls| && (Mirrored(calls[n - 1]) ==> NonEmpty(calls[n - 1].id).None?)
    requires var h := RunUses(cascade, uses);
             Continues(h, CallEvents(calls, n - 1, step, h.allocator), RunUses(cascade, uses + CallUses(calls[..n - 1])))
    ensures var h := RunUses(cascade, uses);
            Continues(h, CallEvents(calls, n, step, h.allocator), RunUses(cascade, uses + CallUses(calls[..n])))
  {
    var h := RunUses(cascade, uses);
    CallUsesTake(calls, n);
    CallEventsClaim(calls, n, step, h.allocator);
    if Mirrored(calls[n - 1]) {
      var before, sofar := CallEvents(calls, n - 1, step, h.allocator), uses + CallUses(calls[..n - 1]);
      var (id, a) := Claim(before.allocator);
      assert uses + CallUses(calls[..n]) == sofar + [Invocation];
      RunSnoc(cascade, sofar, Invocation);
      ContinuesSnoc(h, before, RunUses(cascade, sofar),
                    FunctionCall(id, calls[n - 1].name.value, VisibleArguments(calls[n - 1].args), step), a);
    }
  }

  lemma ContinuesAfter(h: History, head: seq<Event>, m: Mapping, h1: History)
    requires Continues(h, m, h1) && forall e | e in head :: !e.FunctionCall? && !e.FunctionCallOutput?
    ensures Continues(h, Mapping(head + m.events, m.allocator), h1)
  {
    NoIds(head);
    IdsOfConcat(head, m.events);
  }

  lemma NothingContinues(h: History, events: seq<Event>)
    requires forall e | e in events :: !e.FunctionCall? && !e.FunctionCallOutput?
    ensures Continues(h, Mapping(events, h.allocator), h)
  {
    NoIds(events);
  }

  lemma PlannerUses(cascade: string, uses: seq<Use>, s: Step)
    requires HasNoAgyIds(s) && s.kind.PlannerResponse? && s.status.Done? && s.planner.Some?
    ensures var h := RunUses(cascade, uses);
            Continues(h, MapStep(s, h.allocator), RunUses(cascade, uses + UsesOf(s)))
  {
    var h, calls, text := RunUses(cascade, uses), s.planner.value.toolCalls, PlannerText(s.planner.value);
    CallEventsUse(cascade, uses, calls, |calls|, StepIndexOr0(s));
    assert calls[..|calls|] == calls;
    var head := if text == "" then [] else [AssistantMessage(text, StepIndexOr0(s))];
    ContinuesAfter(h, head, CallEvents(calls, |calls|, StepIndexOr0(s), h.allocator), RunUses(cascade, uses + CallUses(calls)));
  }

  lemma OutputContinues(cascade: string, uses: seq<Use>, output: string, step: int)
    ensures var h := RunUses(cascade, uses);
            var (id, a) := Match(h.allocator);
            Continues(h, Mapping([FunctionCallOutput(id, output, step)], a), RunUses(cascade, uses + [Result]))
  {
    var h := RunUses(cascade, uses);
    RunSnoc(cascade, uses, Result);
    OneId(FunctionCallOutput(Match(h.allocator).0, output, step));
  }

  lemma ResultUses(cascade: string, uses: seq<Use>, s: Step)
    requires HasNoAgyIds(s) && IsToolResult(s) && IsTerminal(s)
    ensures var h := RunUses(cascade, uses);
            Continues(h, MapStep(s, h.allocator), RunUses(cascade, uses + UsesOf(s)))
  {
    ResultMapping(s, RunUses(cascade, uses).allocator);
    OutputContinues(cascade, uses, ResultOutput(s), StepIndexOr0(s));
  }

  lemma MapStepUses(cascade: string, uses: seq<Use>, s: Step)
    requires HasNoAgyIds(s)
    ensures var h := RunUses(cascade, uses);
            Continues(h, MapStep(s, h.allocator), RunUses(cascade, uses + UsesOf(s)))
  {
    if s.kind.PlannerResponse? && s.status.Done? && s.planner.Some? {
      PlannerUses(cascade, uses, s);
    } else if IsToolResult(s) && IsTerminal(s) {
      ResultUses(cascade, uses, s);
    } else {
      var h := RunUses(cascade, uses);
      NothingContinues(h, MapStep(s, h.allocator).events);
      assert uses + UsesOf(s) == uses;
    }
  }

  lemma {:induction false} MirrorUses(cascade: string, steps: seq<Step>, fetched: Catalog)
    requires forall s | s in steps :: HasNoAgyIds(s)
    ensures var m := Mirror(cascade, steps, fetched);
            RunUses(cascade, UsesIn(steps)) == History(m.core.allocator, CallIdsOf(m.events), OutputIdsOf(m.events))
  {
    if steps != [] {
      var init, s := steps[..|steps| - 1], steps[|steps| - 1];
      assert s in steps;
      MirrorUses(cascade, init, fetched);
      MapStepUses(cascade, UsesIn(init), s);
      var before := Mirror(cascade, init, fetched);
      CommitAllocates(before.core, s, fetched);
      CommitMapsIds(before.core, s, fetched);
      IdsOfConcat(before.events, CommitEffect(before.core, s, fetched).events);
    }
  }

  /**
   With no agy ids at all, in any run: no two calls and no two outputs share
   an id, and the n-th output has the id of the n-th call for every n exactly
   when no distinct result step settled ahead of its call.
   */
  lemma FallbackPairsInOrder(cascade: string, xs: seq<Sighting>, fetched: Catalog)
    requires forall x | x in xs :: HasNoAgyIds(x.step)
    ensures var out, uses := SeeAll(FreshState(cascade), xs, fetched).out, UsesIn(FirstSettled(xs));
            && NoDuplicates(CallIdsOf(out)) && NoDuplicates(OutputIdsOf(out))
            && |OutputIdsOf(out)| == Count(uses, Result)
            && (OutputIdsOf(out) <= CallIdsOf(out) <==> NeverAhead(uses))
  {
    var out, firsts := SeeAll(FreshState(cascade), xs, fetched).out, FirstSettled(xs);
    FirstSettledKeys(xs);
    forall s | s in firsts ensures HasNoAgyIds(s) {
      var x :| x in xs && x.step == s;
    }
    EachKeyCommitsOnce(cascade, xs, fetched);
    MirrorUses(cascade, firsts, fetched);
    IdsIgnoreDeltas(out);
    AllocatorPairsFifo(cascade, UsesIn(firsts));
  }
}
