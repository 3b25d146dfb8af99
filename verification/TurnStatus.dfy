/** Status edges over a whole run: a turn opens once, closes once, and fails exactly on an ERROR planner. */
module TurnStatus {
  import opened Steps
  import opened Reader
  import opened ExactlyOnce

  /**
   Only a planner step closes a turn: any ERROR, or a DONE that dispatches no
   tool. Its text makes no difference, so the test for assistant text adds nothing.
   */
  lemma TurnClosesExactly(s: Step)
    ensures IsTurnClose(s)
            <==> s.kind.PlannerResponse?
                 && (s.status.Error? || (s.status.Done? && (s.planner.None? || s.planner.value.toolCalls == [])))
  {
  }

  /** After the first `n` steps a user turn has been followed by no closing step. */
  ghost predicate TurnOpen(steps: seq<Step>, n: nat)
    requires n <= |steps|
  {
    exists j :: 0 <= j < n && steps[j].kind.UserInput? && forall m | j < m < n :: !IsTurnClose(steps[m])
  }

  function EdgesOf(events: seq<Event>): seq<SessionStatus> {
    if events == [] then []
    else EdgesOf(events[..|events| - 1])
         + (if events[|events| - 1].StatusEdge? then [events[|events| - 1].status] else [])
  }

  /** Starts with running; running and not running take turns. */
  predicate Alternating(edges: seq<SessionStatus>) {
    && (edges != [] ==> edges[0].Running?)
    && (forall i | 0 < i < |edges| :: edges[i].Running? <==> !edges[i - 1].Running?)
  }

  predicate EndsRunning(edges: seq<SessionStatus>) {
    edges != [] && edges[|edges| - 1].Running?
  }

  lemma {:induction false} EdgesConcat(a: seq<Event>, b: seq<Event>)
    ensures EdgesOf(a + b) == EdgesOf(a) + EdgesOf(b)
  {
    if b == [] {
      assert a + b == a;
    } else {
      assert (a + b)[..|a + b| - 1] == a + b[..|b| - 1];
      EdgesConcat(a, b[..|b| - 1]);
    }
  }

  lemma {:induction false} NoEdges(events: seq<Event>)
    requires forall e | e in events :: !e.StatusEdge?
    ensures EdgesOf(events) == []
  {
    if events != [] {
      assert events[|events| - 1] in events;
      NoEdges(events[..|events| - 1]);
    }
  }

  lemma {:induction false} EdgesIgnoreDeltas(events: seq<Event>)
    ensures EdgesOf(NonDelta(events)) == EdgesOf(events)
  {
    if events != [] {
      var init := events[..|events| - 1];
      EdgesIgnoreDeltas(init);
      EdgesConcat(NonDelta(init), if IsDelta(events[|events| - 1]) then [] else [events[|events| - 1]]);
    }
  }

  /** The edge a step posts, if any. */
  function StepEdges(open: bool, s: Step): seq<SessionStatus> {
    if s.kind.UserInput? then (if open then [] else [SessionStatus.Running])
    else if !open || !IsTurnClose(s) then []
    else if s.status.Error? then [Failed]
    else [Idle]
  }

  predicate AtMostOneEdge(events: seq<Event>) {
    events == [] || (|events| == 1 && events[0].StatusEdge?)
  }

  lemma OneEdge(events: seq<Event>)
    requires AtMostOneEdge(events)
    ensures EdgesOf(events) == if events == [] then [] else [events[0].status]
  {
    assert events != [] ==> events[..0] == [];
  }

  lemma EdgesAround(head: seq<Event>, items: seq<Event>, tail: seq<Event>, telemetry: seq<Event>)
    requires forall e | e in items :: IsItem(e)
    requires forall e | e in telemetry :: IsTelemetry(e)
    requires AtMostOneEdge(head) && AtMostOneEdge(tail)
    ensures EdgesOf(head + items + tail + telemetry)
            == (if head == [] then [] else [head[0].status]) + (if tail == [] then [] else [tail[0].status])
  {
    NoEdges(items);
    NoEdges(telemetry);
    FourEdges(head, items, tail, telemetry);
    OneEdge(head);
    OneEdge(tail);
  }

  lemma FourEdges(a: seq<Event>, b: seq<Event>, c: seq<Event>, d: seq<Event>)
    ensures EdgesOf(a + b + c + d) == EdgesOf(a) + EdgesOf(b) + EdgesOf(c) + EdgesOf(d)
  {
    EdgesConcat(a + b + c, d);
    EdgesConcat(a + b, c);
    EdgesConcat(a, b);
  }

  lemma CommitEdges(c: Core, s: Step, fetched: Catalog)
    ensures EdgesOf(CommitEffect(c, s, fetched).events) == StepEdges(c.turnActive, s)
    ensures CommitEffect(c, s, fetched).core.turnActive == (s.kind.UserInput? || (c.turnActive && !IsTurnClose(s)))
  {
    var telemetry := CommitShape(c, s, fetched);
    EdgesAround(Opening(c.turnActive, s), MapStep(s, c.allocator).events, Closing(c.turnActive, s), telemetry);
  }

  lemma {:induction false} ActiveWhileOpen(cascade: string, steps: seq<Step>, fetched: Catalog)
    ensures Mirror(cascade, steps, fetched).core.turnActive <==> TurnOpen(steps, |steps|)
  {
    if steps != [] {
      var init, s := steps[..|steps| - 1], steps[|steps| - 1];
      ActiveWhileOpen(cascade, init, fetched);
      CommitEdges(Mirror(cascade, init, fetched).core, s, fetched);
      OpenSnoc(steps);
    }
  }

  lemma OpenSnoc(steps: seq<Step>)
    requires steps != []
    ensures var s := steps[|steps| - 1];
            TurnOpen(steps, |steps|)
            <==> s.kind.UserInput? || (TurnOpen(steps[..|steps| - 1], |steps| - 1) && !IsTurnClose(s))
  {
    var init, s, n := steps[..|steps| - 1], steps[|steps| - 1], |steps| - 1;
    assert forall m | 0 <= m < n :: init[m] == steps[m];
    if TurnOpen(steps, |steps|) && !s.kind.UserInput? {
      var j :| 0 <= j < |steps| && steps[j].kind.UserInput? && forall m | j < m < |steps| :: !IsTurnClose(steps[m]);
      assert init[j].kind.UserInput? && !IsTurnClose(steps[n]);
      assert TurnOpen(init, n);
    }
    if TurnOpen(init, n) && !IsTurnClose(s) {
      var j :| 0 <= j < n && init[j].kind.UserInput? && forall m | j < m < n :: !IsTurnClose(init[m]);
      assert steps[j].kind.UserInput?;
    }
    if s.kind.UserInput? {
      assert steps[n].kind.UserInput?;
    }
  }

  /**
   What each distinct settled step posts, given those before it: running when
   a user turn finds no turn open, failed when an ERROR planner finds one
   open, idle when any other closing step does.
   */
  lemma EdgeOfEachStep(cascade: string, steps: seq<Step>, s: Step, fetched: Catalog)
    ensures EdgesOf(CommitEffect(Mirror(cascade, steps, fetched).core, s, fetched).events)
            == StepEdges(TurnOpen(steps, |steps|), s)
  {
    ActiveWhileOpen(cascade, steps, fetched);
    CommitEdges(Mirror(cascade, steps, fetched).core, s, fetched);
  }

  lemma AlternatingSnoc(edges: seq<SessionStatus>, s: Step)
    requires Alternating(edges)
    ensures var longer := edges + StepEdges(EndsRunning(edges), s);
            && Alternating(longer)
            && (EndsRunning(longer) <==> s.kind.UserInput? || (EndsRunning(edges) && !IsTurnClose(s)))
  {
    var longer := edges + StepEdges(EndsRunning(edges), s);
    forall i | 0 < i < |longer|
      ensures longer[i].Running? <==> !longer[i - 1].Running?
    {
      assert longer[i - 1] == edges[i - 1];
    }
  }

  lemma {:induction false} MirrorAlternates(cascade: string, steps: seq<Step>, fetched: Catalog)
    ensures var m := Mirror(cascade, steps, fetched);
            Alternating(EdgesOf(m.events)) && (m.core.turnActive <==> EndsRunning(EdgesOf(m.events)))
  {
    if steps != [] {
      var init, s := steps[..|steps| - 1], steps[|steps| - 1];
      MirrorAlternates(cascade, init, fetched);
      var before := Mirror(cascade, init, fetched);
      CommitEdges(before.core, s, fetched);
      EdgesConcat(before.events, CommitEffect(before.core, s, fetched).events);
      AlternatingSnoc(EdgesOf(before.events), s);
    }
  }

  /**
   Over any run the posted edges alternate, starting with running; the turn
   flag is set exactly when the last edge is running, which is exactly when a
   user turn has been followed by no closing step.
   */
  lemma StatusFollowsTurns(cascade: string, xs: seq<Sighting>, fetched: Catalog)
    ensures var st := SeeAll(FreshState(cascade), xs, fetched);
            var firsts := FirstSettled(xs);
            && Alternating(EdgesOf(st.out))
            && (st.core.turnActive <==> EndsRunning(EdgesOf(st.out)))
            && (st.core.turnActive <==> TurnOpen(firsts, |firsts|))
  {
    var st := SeeAll(FreshState(cascade), xs, fetched);
    EachKeyCommitsOnce(cascade, xs, fetched);
    MirrorAlternates(cascade, FirstSettled(xs), fetched);
    ActiveWhileOpen(cascade, FirstSettled(xs), fetched);
    EdgesIgnoreDeltas(st.out);
  }
}
