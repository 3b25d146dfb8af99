/**
 The outer loop of the reader: run until a rotation is signalled, then adopt
 the new cascade in place or rotate the session onto it
 (omnicraft/antigravity_native_reader.py, `run_reader_with_bridge`).
 */
module SessionRotation {
  import opened Wrappers
  import opened Sequences
  import opened RotationDetection

  datatype Bridge = Bridge(session: string, conversation: string)

  /** `None` where the request fails or its answer is unusable. */
  datatype OldSession = OldSession(agent: Option<string>, runner: Option<string>)
  datatype Server = Server(
    snapshot: Option<OldSession>,
    created: Option<string>,
    bindOk: bool,
    transferOk: bool,
    writeOk: bool,
    lastPatchOk: bool)

  datatype Call =
    | Fetch(session: string)
    | Create(agent: string, made: Option<string>)
    | Bind(session: string, runner: string)
    | Transfer(from: string, to: string)
    | WriteBridge(bridge: Bridge)
    | Release(session: string)
    | RecordExternalId(session: string, cascade: string)

  datatype Done = Done(call: Call, ok: bool)

  datatype Outcome = Rotated(session: string) | Kept | Raised
  datatype Attempt = Attempt(outcome: Outcome, calls: seq<Done>)

  /** `_rotate_session_for_cascade`: its calls up to the first that fails. */
  function Rotate(previous: string, cascade: string, server: Server): Attempt {
    var fetched := [Done(Fetch(previous), server.snapshot.Some?)];
    if server.snapshot.None? || NonEmpty(server.snapshot.value.agent).None? then Attempt(Kept, fetched)
    else
      var created := fetched + [Done(Create(server.snapshot.value.agent.value, server.created), server.created.Some?)];
      if NonEmpty(server.created).None? then Attempt(Kept, created)
      else RotateOnto(previous, server.created.value, cascade, server, created)
  }

  function RotateOnto(previous: string, replacement: string, cascade: string, server: Server, created: seq<Done>): Attempt
    requires server.snapshot.Some?
  {
    var runner := NonEmpty(server.snapshot.value.runner);
    var bound := if runner.Some? then created + [Done(Bind(replacement, runner.value), server.bindOk)] else created;
    if runner.Some? && !server.bindOk then Attempt(Kept, bound)
    else
      var transferred := bound + [Done(Transfer(previous, replacement), server.transferOk)];
      if !server.transferOk then Attempt(Kept, transferred)
      else
        var written := transferred + [Done(WriteBridge(Bridge(replacement, cascade)), server.writeOk)];
        if !server.writeOk then Attempt(Raised, written)
        else Attempt(Rotated(replacement), written + [Done(Release(previous), server.lastPatchOk)])
  }

  // ----- the loop -----

  datatype Phase = Serving | Ended | Crashed

  datatype Run = Run(
    bridge: Bridge,
    current: string,
    failed: set<string>,
    failures: seq<string>,
    calls: seq<Done>,
    phase: Phase)

  /** What one visit of `supervise_reader` meets: the detector's ticks, the steps committed, the server's answers. */
  datatype Visit = Visit(ticks: seq<Tick>, committed: nat, server: Server)

  function Start(session: string, conversation: string): Run {
    Run(Bridge(session, conversation), session, {}, [], [], Serving)
  }

  function Adopt(r: Run, cascade: string, server: Server): Run {
    var adopted := Bridge(r.current, cascade);
    if !server.writeOk then r.(calls := r.calls + [Done(WriteBridge(adopted), false)], phase := Crashed)
    else
      r.(bridge := adopted,
         calls := r.calls + [Done(WriteBridge(adopted), true),
                             Done(RecordExternalId(r.current, cascade), server.lastPatchOk)])
  }

  function Fork(r: Run, cascade: string, server: Server): Run {
    var a := Rotate(r.current, cascade, server);
    var r' := r.(calls := r.calls + a.calls);
    match a.outcome
    case Rotated(session) => r'.(bridge := Bridge(session, cascade), current := session)
    case Kept => r'.(failed := r.failed + {cascade}, failures := r.failures + [cascade])
    case Raised => r'.(phase := Crashed)
  }

  function Step(r: Run, v: Visit): Run {
    if !r.phase.Serving? then r
    else
      match FirstSignal(v.ticks, r.bridge.conversation, r.failed)
      case None => r.(phase := Ended)
      case Some(cascade) => if v.committed == 0 then Adopt(r, cascade, v.server) else Fork(r, cascade, v.server)
  }

  function Steps(r: Run, visits: seq<Visit>): Run {
    if visits == [] then r else Step(Steps(r, visits[..|visits| - 1]), visits[|visits| - 1])
  }

  // ----- the objects -----

  class Supervisor {
    /** The bridge-state file. */
    var bridge: Bridge
    var current: string
    var failedRotations: set<string>
    /** Failed cascades and calls made so far, in order. */
    var failures: seq<string>
    var calls: seq<Done>

    ghost function Value(phase: Phase): Run
      reads this
    {
      Run(bridge, current, failedRotations, failures, calls, phase)
    }

    constructor (session: string, conversation: string)
      ensures Value(Serving) == Start(session, conversation)
    {
      bridge, current := Bridge(session, conversation), session;
      failedRotations, failures, calls := {}, [], [];
    }

    method Perform(call: Call, ok: bool)
      modifies this`calls
      ensures calls == old(calls) + [Done(call, ok)]
    {
      calls := calls + [Done(call, ok)];
    }

    method RotateSessionForCascade(previous: string, cascade: string, server: Server) returns (outcome: Outcome)
      modifies this`calls, this`bridge
      ensures outcome == Rotate(previous, cascade, server).outcome
      ensures calls == old(calls) + Rotate(previous, cascade, server).calls
      ensures bridge == if outcome.Rotated? then Bridge(outcome.session, cascade) else old(bridge)
    {
      Perform(Fetch(previous), server.snapshot.Some?);
      if server.snapshot.None? {
        return Kept;
      }
      var snapshot := server.snapshot.value;
      if NonEmpty(snapshot.agent).None? {
        return Kept;
      }
      Perform(Create(snapshot.agent.value, server.created), server.created.Some?);
      if NonEmpty(server.created).None? {
        return Kept;
      }
      outcome := MoveOnto(previous, server.created.value, cascade, server);
    }

    /** Bind, transfer, write the bridge state, release. */
    method MoveOnto(previous: string, replacement: string, cascade: string, server: Server) returns (outcome: Outcome)
      requires server.snapshot.Some?
      modifies this`calls, this`bridge
      ensures var a := RotateOnto(previous, replacement, cascade, server, old(calls));
              outcome == a.outcome && calls == a.calls
      ensures bridge == if outcome.Rotated? then Bridge(outcome.session, cascade) else old(bridge)
    {
      var runner := NonEmpty(server.snapshot.value.runner);
      if runner.Some? {
        Perform(Bind(replacement, runner.value), server.bindOk);
        if !server.bindOk {
          return Kept;
        }
      }
      Perform(Transfer(previous, replacement), server.transferOk);
      if !server.transferOk {
        return Kept;
      }
      Perform(WriteBridge(Bridge(replacement, cascade)), server.writeOk);
      if !server.writeOk {
        return Raised;
      }
      bridge := Bridge(replacement, cascade);
      Perform(Release(previous), server.lastPatchOk);
      outcome := Rotated(replacement);
    }

    /** The reader loop over as many visits as there are; it stops early when a visit ends or raises. */
    method RunReaderWithBridge(visits: seq<Visit>) returns (phase: Phase)
      modifies this
      ensures Value(phase) == Steps(old(Value(Serving)), visits)
    {
      phase := Serving;
      for i := 0 to |visits|
        invariant phase.Serving? && Value(phase) == Steps(old(Value(Serving)), visits[..i])
      {
        StepsFrom(old(Value(Serving)), visits, i);
        var v := visits[i];
        var cascade := WatchForRotation(v.ticks, bridge.conversation, failedRotations);
        if cascade.None? {
          return Ended;
        }
        if v.committed == 0 {
          Perform(WriteBridge(Bridge(current, cascade.value)), v.server.writeOk);
          if !v.server.writeOk {
            return Crashed;
          }
          bridge := Bridge(current, cascade.value);
          Perform(RecordExternalId(current, cascade.value), v.server.lastPatchOk);
          continue;
        }
        var outcome := RotateSessionForCascade(current, cascade.value, v.server);
        match outcome {
          case Rotated(session) => current := session;
          case Kept =>
            failedRotations := failedRotations + {cascade.value};
            failures := failures + [cascade.value];
          case Raised => return Crashed;
        }
      }
      assert visits[..|visits|] == visits;
    }
  }

  /** One more visit, and what happens when it is the last that counts. */
  lemma StepsFrom(r: Run, visits: seq<Visit>, i: nat)
    requires i < |visits|
    ensures Steps(r, visits[..i + 1]) == Step(Steps(r, visits[..i]), visits[i])
    ensures !Steps(r, visits[..i + 1]).phase.Serving? ==> Steps(r, visits) == Steps(r, visits[..i + 1])
  {
    assert visits[..i + 1][..i] == visits[..i];
    if !Steps(r, visits[..i + 1]).phase.Serving? {
      StoppedStays(r, visits, i + 1);
    }
  }

  lemma {:induction false} StoppedStays(r: Run, visits: seq<Visit>, i: nat)
    requires i <= |visits| && !Steps(r, visits[..i]).phase.Serving?
    ensures Steps(r, visits) == Steps(r, visits[..i])
    decreases |visits| - i
  {
    if i == |visits| {
      assert visits[..i] == visits;
    } else {
      assert visits[..i + 1][..i] == visits[..i];
      StoppedStays(r, visits, i + 1);
    }
  }

  // ----- one attempt -----

  ghost predicate NeedsMet(server: Server) {
    && server.snapshot.Some? && NonEmpty(server.snapshot.value.agent).Some?
    && NonEmpty(server.created).Some?
    && (NonEmpty(server.snapshot.value.runner).Some? ==> server.bindOk)
    && server.transferOk
  }

  /**
   The session rotates exactly when every request before the state write
   succeeds and so does the write; a failing write, unlike any failure before
   it, is raised out of the loop.
   */
  lemma RotatesExactly(previous: string, cascade: string, server: Server)
    ensures Rotate(previous, cascade, server).outcome.Rotated? <==> NeedsMet(server) && server.writeOk
    ensures Rotate(previous, cascade, server).outcome.Raised? <==> NeedsMet(server) && !server.writeOk
    ensures Rotate(previous, cascade, server).outcome.Rotated? ==>
              Rotate(previous, cascade, server).outcome.session == server.created.value
  {
  }

  /** Bridge state is written only for a session that was created, bound to the runner and given the terminal. */
  lemma WritesAfterTransfer(previous: string, cascade: string, server: Server, k: nat)
    requires var calls := Rotate(previous, cascade, server).calls;
             k < |calls| && calls[k].call.WriteBridge?
    ensures var calls := Rotate(previous, cascade, server).calls;
            var written := calls[k].call.bridge;
            && written.conversation == cascade
            && (forall j | 0 <= j < k :: calls[j].ok)
            && (exists j :: 0 <= j < k && calls[j].call.Create? && calls[j].call.made == Some(written.session))
            && k > 0 && calls[k - 1] == Done(Transfer(previous, written.session), true)
            && (forall runner :: server.snapshot.value.runner == Some(runner) && runner != "" ==>
                  k > 1 && calls[k - 2] == Done(Bind(written.session, runner), true))
  {
    var calls := Rotate(previous, cascade, server).calls;
    assert calls[1].call.Create?;
  }

  /** The calls of a rotation that goes all the way. */
  function Plan(previous: string, made: string, agent: string, runner: string, cascade: string, server: Server)
    : seq<Done>
  {
    [Done(Fetch(previous), true), Done(Create(agent, Some(made)), true)]
    + (if runner == "" then [] else [Done(Bind(made, runner), server.bindOk)])
    + [Done(Transfer(previous, made), server.transferOk),
       Done(WriteBridge(Bridge(made, cascade)), server.writeOk),
       Done(Release(previous), server.lastPatchOk)]
  }

  predicate Is(o: Option<string>, s: string) {
    if s == "" then o.None? || o.value == "" else o == Some(s)
  }

  /**
   Once a session has been made for the agent, the new session is bound to the
   runner of the old one, if there is one, takes over its terminal, is written
   to bridge state, and the old one is released: in this order, as far as the
   first call that fails.
   */
  lemma CallsFollowThePlan(previous: string, made: string, agent: string, runner: string, cascade: string,
                           server: Server)
    requires server.snapshot.Some? && server.snapshot.value.agent == Some(agent) && agent != ""
    requires server.created == Some(made) && made != "" && Is(server.snapshot.value.runner, runner)
    ensures var plan := Plan(previous, made, agent, runner, cascade, server);
            var calls := Rotate(previous, cascade, server).calls;
            && calls != [] && calls <= plan
            && (forall k | 0 <= k < |calls| - 1 :: calls[k].ok)
            && (calls == plan || !calls[|calls| - 1].ok)
  {
  }

  /** Before that it stops at the first request that fails or whose answer names no agent or no session. */
  lemma NothingIsBoundWithoutASession(previous: string, cascade: string, server: Server)
    ensures server.snapshot.None? ==> Rotate(previous, cascade, server).calls == [Done(Fetch(previous), false)]
    ensures server.snapshot.Some? && Is(server.snapshot.value.agent, "")
            ==> Rotate(previous, cascade, server).calls == [Done(Fetch(previous), true)]
    ensures server.snapshot.Some? && !Is(server.snapshot.value.agent, "") && Is(server.created, "")
            ==> Rotate(previous, cascade, server).calls
                == [Done(Fetch(previous), true),
                    Done(Create(server.snapshot.value.agent.value, server.created), server.created.Some?)]
  {
  }

  /** What a visit calls for: nothing, an adoption of the cascade by the current session, or its rotation onto it. */
  lemma VisitCalls(r: Run, v: Visit)
    requires r.phase.Serving?
    ensures var r' := Step(r, v);
            match FirstSignal(v.ticks, r.bridge.conversation, r.failed)
            case None => r'.calls == r.calls && r'.phase.Ended?
            case Some(cascade) =>
              if v.committed > 0 then r'.calls == r.calls + Rotate(r.current, cascade, v.server).calls
              else
                && r'.calls[..|r.calls|] == r.calls
                && r'.calls[|r.calls|..]
                   == [Done(WriteBridge(Bridge(r.current, cascade)), v.server.writeOk)]
                      + (if !v.server.writeOk then []
                         else [Done(RecordExternalId(r.current, cascade), v.server.lastPatchOk)])
                && (r'.phase.Crashed? <==> !v.server.writeOk)
  {
  }

  // ----- every run -----

  /** At every head of the loop, and wherever it stops, bridge state names the current session. */
  lemma {:induction false} BridgeNamesTheSession(session: string, conversation: string, visits: seq<Visit>)
    ensures var r := Steps(Start(session, conversation), visits);
            r.bridge.session == r.current
  {
    if visits != [] {
      BridgeNamesTheSession(session, conversation, visits[..|visits| - 1]);
    }
  }

  /**
   What a visit does to the binding: nothing unless a cascade was signalled;
   in place while the bound cascade has no committed step, and only then; and
   a failed rotation leaves bridge and session as they were.
   */
  lemma VisitRebinds(r: Run, v: Visit)
    requires r.phase.Serving? && r.bridge.session == r.current
    ensures var r' := Step(r, v);
            var signal := FirstSignal(v.ticks, r.bridge.conversation, r.failed);
            && (r'.bridge != r.bridge ==> signal.Some? && r'.bridge.conversation == signal.value)
            && (v.committed == 0 ==> r'.current == r.current && r'.failures == r.failures)
            && (r'.failures != r.failures ==> r'.bridge == r.bridge && r'.current == r.current && r'.phase.Serving?)
            && (r'.phase.Crashed? ==> r'.bridge == r.bridge && r'.current == r.current)
            && (r'.phase.Serving? && r'.failures == r.failures ==>
                  signal.Some? && r'.bridge == Bridge(r'.current, signal.value))
  {
  }

  function ListedIds(visits: seq<Visit>): set<string> {
    set v, t, e | v in visits && t in v.ticks && t.Fetched? && e in t.summaries :: e.id
  }

  /** A failed cascade is never signalled again: each failure grows the skip set, and names a listed cascade. */
  lemma {:induction false} FailuresAreDistinct(session: string, conversation: string, visits: seq<Visit>)
    ensures var r := Steps(Start(session, conversation), visits);
            && NoDuplicates(r.failures)
            && (forall id :: id in r.failed <==> id in r.failures)
            && r.failed <= ListedIds(visits)
  {
    if visits != [] {
      var init, v := visits[..|visits| - 1], visits[|visits| - 1];
      FailuresAreDistinct(session, conversation, init);
      var r := Steps(Start(session, conversation), init);
      assert visits == init + [v];
      assert ListedIds(init) <= ListedIds(visits);
      if r.phase.Serving? && FirstSignal(v.ticks, r.bridge.conversation, r.failed).Some? {
        SignalIsListed(v, r.bridge.conversation, r.failed);
        assert v in visits;
      }
    }
  }

  /** What is signalled is never the bound cascade. */
  lemma SignalIsAnother(ticks: seq<Tick>, bound: string, skip: set<string>)
    requires FirstSignal(ticks, bound, skip).Some?
    ensures FirstSignal(ticks, bound, skip).value != bound
  {
    SignalsExactly(ticks, bound, skip);
    var k :| 0 <= k < |ticks| && ticks[k].Fetched? && Rotation(ticks[k].summaries, bound) == FirstSignal(ticks, bound, skip);
    RotatesToTheNewest(ticks[k].summaries, bound);
  }

  lemma SignalIsListed(v: Visit, bound: string, skip: set<string>)
    requires FirstSignal(v.ticks, bound, skip).Some?
    ensures FirstSignal(v.ticks, bound, skip).value !in skip
    ensures FirstSignal(v.ticks, bound, skip).value in ListedIds([v])
  {
    var id := FirstSignal(v.ticks, bound, skip).value;
    SignalsExactly(v.ticks, bound, skip);
    var k :| 0 <= k < |v.ticks| && v.ticks[k].Fetched? && Rotation(v.ticks[k].summaries, bound) == Some(id);
    RotatesToTheNewest(v.ticks[k].summaries, bound);
    var e :| e in v.ticks[k].summaries && e.id == id;
    assert v in [v] && v.ticks[k] in v.ticks;
  }

  /** A run has no more failed rotations than there are distinct cascades. */
  lemma FailuresAreBounded(session: string, conversation: string, visits: seq<Visit>)
    ensures |Steps(Start(session, conversation), visits).failures| <= |ListedIds(visits)|
  {
    FailuresAreDistinct(session, conversation, visits);
    NoDuplicatesFit(Steps(Start(session, conversation), visits).failures, ListedIds(visits));
  }

  /** After a visit that rebinds, the same summaries again signal nothing: the loop does not flap. */
  lemma RebindingIsQuiet(r: Run, v: Visit, again: Visit, xs: Summaries)
    requires r.phase.Serving? && DistinctIds(xs)
    requires forall t | t in v.ticks + again.ticks :: t == Fetched(xs)
    requires Step(r, v).phase.Serving? && Step(r, v).failures == r.failures
    ensures Step(Step(r, v), again).phase.Ended?
    ensures Step(Step(r, v), again).bridge == Step(r, v).bridge
  {
    var r' := Step(r, v);
    SignalsExactly(v.ticks, r.bridge.conversation, r.failed);
    var k :| 0 <= k < |v.ticks| && v.ticks[k].Fetched?
             && Rotation(v.ticks[k].summaries, r.bridge.conversation) == Some(r'.bridge.conversation);
    assert v.ticks[k] in v.ticks + again.ticks;
    RebindingSettles(xs, r.bridge.conversation);
    forall j | 0 <= j < |again.ticks|
      ensures again.ticks[j] == Fetched(xs)
    {
      assert again.ticks[j] in v.ticks + again.ticks;
    }
    SignalsExactly(again.ticks, r'.bridge.conversation, r'.failed);
  }
}
