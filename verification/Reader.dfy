/**
 The reader engine (omnicraft/antigravity_native_reader.py): step sightings
 from a live stream or a poll, in any mix, become posted events. `_ReaderState`
 is a class; its methods are specified by functions on the state's value.
 */
module Reader {
  import opened Wrappers
  import opened PyText
  import opened CallIds
  import opened Steps
  import opened StepKeys
  import opened InteractionGates

  // ----- what a step is to a turn -----

  predicate IsSettled(s: Step) {
    s.kind.UserInput? || IsTerminal(s)
  }

  predicate IsGeneratingPlanner(s: Step) {
    s.kind.PlannerResponse? && s.status.Generating?
  }

  predicate DispatchesTools(s: Step) {
    s.planner.Some? && s.planner.value.toolCalls != []
  }

  predicate IsAssistantTextClose(s: Step) {
    if !s.status.Done? then false
    else if !s.kind.PlannerResponse? then false
    else if s.planner.None? then false
    else if Blank(PlannerText(s.planner.value)) then false
    else !DispatchesTools(s)
  }

  predicate IsTurnClose(s: Step) {
    if IsAssistantTextClose(s) then true
    else if !s.kind.PlannerResponse? then false
    else if s.status.Error? then true
    else if !s.status.Done? then false
    else !DispatchesTools(s)
  }

  predicate IsErrorPlanner(s: Step) {
    s.kind.PlannerResponse? && s.status.Error?
  }

  // ----- telemetry -----

  datatype CatalogEntry = CatalogEntry(model: string, displayName: string)
  type Catalog = seq<CatalogEntry>

  /** The display name of the first entry for the model that has one, else the raw enum. */
  function DisplayName(model: string, catalog: Catalog): string {
    if catalog == [] then model
    else if catalog[0].model == model && catalog[0].displayName != "" then catalog[0].displayName
    else DisplayName(model, catalog[1..])
  }

  function RequestedModel(s: Step): Option<string> {
    if !s.kind.UserInput? || s.userTurn.None? then None
    else if NonEmpty(s.userTurn.value.planModel).Some? then s.userTurn.value.planModel
    else NonEmpty(s.userTurn.value.requestedModel)
  }

  function Positive(n: int): nat {
    if n > 0 then n else 0
  }

  /** `_model_usage_from_step`: positive counts and a model name, or nothing at all. */
  function UsageOf(s: Step): Option<Usage> {
    if !s.kind.PlannerResponse? || !s.status.Done? || s.usage.None? then None
    else
      var u := s.usage.value;
      var kept := Usage(Positive(u.input), Positive(u.output), Positive(u.cacheRead), NonEmpty(u.model));
      if kept == Usage(0, 0, 0, None) then None else Some(kept)
  }

  // ----- the committed part of the state -----

  datatype Core = Core(
    allocator: Allocator,
    turnActive: bool,
    postedModel: Option<string>,
    catalog: Option<Catalog>,
    input: nat,
    output: nat,
    cacheRead: nat)

  function FreshCore(cascade: string): Core {
    Core(Fresh(cascade), false, None, None, 0, 0, 0)
  }

  datatype Effect = Effect(core: Core, events: seq<Event>)

  function Opening(active: bool, s: Step): seq<Event> {
    if s.kind.UserInput? && !active then [StatusEdge(SessionStatus.Running)] else []
  }

  function Closing(active: bool, s: Step): seq<Event> {
    if IsTurnClose(s) && active then [StatusEdge(if IsErrorPlanner(s) then Failed else Idle)] else []
  }

  /** Whether a turn is open after the step. */
  function StillActive(active: bool, s: Step): bool {
    s.kind.UserInput? || (active && !IsTurnClose(s))
  }

  /** `_emit_step`: the opening edge, the items, the closing edge. */
  function EmitEffect(c: Core, s: Step): Effect {
    var m := MapStep(s, c.allocator);
    Effect(c.(allocator := m.allocator, turnActive := StillActive(c.turnActive, s)),
           Opening(c.turnActive, s) + m.events + Closing(c.turnActive, s))
  }

  function WithCatalog(c: Core, fetched: Catalog): Core {
    if c.catalog.Some? then c else c.(catalog := Some(fetched))
  }

  function ModelEffect(c: Core, s: Step, fetched: Catalog): Effect {
    var model := RequestedModel(s);
    if model.None? || model == c.postedModel then Effect(c, [])
    else
      var c' := WithCatalog(c, fetched);
      Effect(c'.(postedModel := model),
             [ModelChange(DisplayName(model.value, c'.catalog.value), StepIndexOr0(s))])
  }

  function CountOrNone(n: nat): Option<int> {
    if n > 0 then Some(n) else None
  }

  function UsageEffect(c: Core, s: Step, fetched: Catalog): Effect {
    match UsageOf(s)
    case None => Effect(c, [])
    case Some(u) =>
      var c1 := c.(input := c.input + u.input, output := c.output + u.output, cacheRead := c.cacheRead + u.cacheRead);
      var c2 := if u.model.Some? then WithCatalog(c1, fetched) else c1;
      var name := if u.model.Some? then Some(DisplayName(u.model.value, c2.catalog.value)) else None;
      Effect(c2, [SessionUsage(CountOrNone(c2.input), CountOrNone(c2.output), CountOrNone(c2.cacheRead),
                               name, StepIndexOr0(s))])
  }

  /** Everything a not yet recorded step does on the committed path. */
  function CommitEffect(c: Core, s: Step, fetched: Catalog): Effect {
    var e1 := EmitEffect(c, s);
    var e2 := ModelEffect(e1.core, s, fetched);
    var e3 := UsageEffect(e2.core, s, fetched);
    Effect(e3.core, e1.events + e2.events + e3.events)
  }

  // ----- the whole state -----

  datatype State = State(
    core: Core,
    seen: set<Key>,
    prefixes: map<int, string>,
    reasoning: map<int, string>,
    out: seq<Event>)

  function FreshState(cascade: string): State {
    State(FreshCore(cascade), {}, map[], map[], [])
  }

  function Commit(st: State, s: Step, fetched: Catalog): State {
    if StepKey(s) in st.seen then st
    else
      var e := CommitEffect(st.core, s, fetched);
      st.(core := e.core,
          seen := if IsSettled(s) then st.seen + {StepKey(s)} else st.seen,
          out := st.out + e.events)
  }

  function PrefixAt(prefixes: map<int, string>, i: int): string {
    if i in prefixes then prefixes[i] else ""
  }

  /** Growth past what was forwarded, if the text extends it. */
  function Growth(forwarded: string, text: string): string {
    if forwarded < text then text[|forwarded|..] else ""
  }

  function ReasoningStep(st: State, s: Step): State {
    if s.index.None? || s.planner.None? || s.planner.value.thinking.None? then st
    else
      var i, text := s.index.value, s.planner.value.thinking.value;
      var growth := Growth(PrefixAt(st.reasoning, i), text);
      st.(reasoning := st.reasoning[i := text],
          out := if growth == "" then st.out else st.out + [ReasoningDelta(growth, i !in st.reasoning, i)])
  }

  function TextStep(st: State, s: Step): State {
    if s.index.None? || s.planner.None? || s.planner.value.modified.None? then st
    else
      var i, text := s.index.value, s.planner.value.modified.value;
      var growth := Growth(PrefixAt(st.prefixes, i), text);
      st.(prefixes := st.prefixes[i := text],
          out := if growth == "" then st.out else st.out + [TextDelta(growth, i)])
  }

  function Retire(st: State, s: Step): State {
    if s.index.None? then st
    else st.(prefixes := st.prefixes - {s.index.value}, reasoning := st.reasoning - {s.index.value})
  }

  /** `_process_stream_step` */
  function StreamStep(st: State, s: Step, fetched: Catalog): State {
    if IsGeneratingPlanner(s) then TextStep(ReasoningStep(st, s), s)
    else Retire(Commit(st, s, fetched), s)
  }

  datatype Path = Streamed | Polled
  datatype Sighting = Sighting(path: Path, step: Step)

  function See(st: State, x: Sighting, fetched: Catalog): State {
    match x.path
    case Streamed => StreamStep(st, x.step, fetched)
    case Polled => Commit(st, x.step, fetched)
  }

  function SeeAll(st: State, xs: seq<Sighting>, fetched: Catalog): State {
    if xs == [] then st else See(SeeAll(st, xs[..|xs| - 1], fetched), xs[|xs| - 1], fetched)
  }

  // ----- the object -----

  class ReaderState {
    const allocator: ToolCallIdAllocator
    const gates: GateKeeper
    var seen: set<Key>
    var prefixes: map<int, string>
    var reasoningPrefixes: map<int, string>
    var turnActive: bool
    var postedModelEnum: Option<string>
    var modelCatalog: Option<Catalog>
    var cumulativeInputTokens: nat
    var cumulativeOutputTokens: nat
    var cumulativeCacheReadTokens: nat
    /** Events handed to the delivery loop, in order. */
    var out: seq<Event>

    ghost function CoreValue(): Core
      reads this, allocator
    {
      Core(allocator.Value(), turnActive, postedModelEnum, modelCatalog,
           cumulativeInputTokens, cumulativeOutputTokens, cumulativeCacheReadTokens)
    }

    ghost function Value(): State
      reads this, allocator
    {
      State(CoreValue(), seen, prefixes, reasoningPrefixes, out)
    }

    constructor (cascade: string)
      ensures Value() == FreshState(cascade)
      ensures gates.Value() == NO_GATES && gates.cascade == cascade
      ensures fresh(allocator) && fresh(gates)
    {
      allocator := new ToolCallIdAllocator(cascade);
      gates := new GateKeeper(cascade);
      seen, prefixes, reasoningPrefixes := {}, map[], map[];
      turnActive, postedModelEnum, modelCatalog := false, None, None;
      cumulativeInputTokens, cumulativeOutputTokens, cumulativeCacheReadTokens := 0, 0, 0;
      out := [];
    }

    method PostEvent(e: Event)
      modifies this`out
      ensures out == old(out) + [e]
    {
      out := out + [e];
    }

    method PostEvents(events: seq<Event>)
      modifies this`out
      ensures out == old(out) + events
    {
      for i := 0 to |events|
        invariant out == old(out) + events[..i]
      {
        PostEvent(events[i]);
      }
      assert events[..|events|] == events;
    }

    method OpenTurn(s: Step)
      modifies this`turnActive, this`out
      ensures turnActive == (s.kind.UserInput? || old(turnActive))
      ensures out == old(out) + Opening(old(turnActive), s)
    {
      if s.kind.UserInput? && !turnActive {
        turnActive := true;
        PostEvent(StatusEdge(SessionStatus.Running));
      }
    }

    method CloseTurn(s: Step)
      modifies this`turnActive, this`out
      ensures turnActive == (old(turnActive) && !IsTurnClose(s))
      ensures out == old(out) + Closing(old(turnActive), s)
    {
      if IsTurnClose(s) && turnActive {
        turnActive := false;
        PostEvent(StatusEdge(if IsErrorPlanner(s) then Failed else Idle));
      }
    }

    method EmitStep(s: Step)
      modifies this`turnActive, this`out, allocator
      ensures CoreValue() == EmitEffect(old(CoreValue()), s).core
      ensures out == old(out) + EmitEffect(old(CoreValue()), s).events
    {
      OpenTurn(s);
      var events := MapStepToEvents(s, allocator);
      PostEvents(events);
      CloseTurn(s);
      assert turnActive == StillActive(old(turnActive), s);
    }

    method EnsureCatalog(fetched: Catalog) returns (catalog: Catalog)
      modifies this`modelCatalog
      ensures CoreValue() == WithCatalog(old(CoreValue()), fetched)
      ensures modelCatalog == Some(catalog)
    {
      if modelCatalog.Some? {
        return modelCatalog.value;
      }
      modelCatalog := Some(fetched);
      catalog := fetched;
    }

    method MaybeEmitModelChange(s: Step, fetched: Catalog)
      modifies this`modelCatalog, this`postedModelEnum, this`out
      ensures var e := ModelEffect(old(CoreValue()), s, fetched);
              CoreValue() == e.core && out == old(out) + e.events
    {
      var model := RequestedModel(s);
      if model.None? {
        return;
      }
      if model == postedModelEnum {
        return;
      }
      var catalog := EnsureCatalog(fetched);
      PostEvent(ModelChange(DisplayName(model.value, catalog), StepIndexOr0(s)));
      postedModelEnum := model;
    }

    method MaybeEmitSessionUsage(s: Step, fetched: Catalog)
      modifies this`modelCatalog, this`cumulativeInputTokens, this`cumulativeOutputTokens,
               this`cumulativeCacheReadTokens, this`out
      ensures var e := UsageEffect(old(CoreValue()), s, fetched);
              CoreValue() == e.core && out == old(out) + e.events
    {
      var perCall := UsageOf(s);
      if perCall.None? {
        return;
      }
      cumulativeInputTokens := cumulativeInputTokens + perCall.value.input;
      cumulativeOutputTokens := cumulativeOutputTokens + perCall.value.output;
      cumulativeCacheReadTokens := cumulativeCacheReadTokens + perCall.value.cacheRead;
      var name: Option<string> := None;
      if perCall.value.model.Some? {
        var catalog := EnsureCatalog(fetched);
        name := Some(DisplayName(perCall.value.model.value, catalog));
      }
      PostEvent(SessionUsage(CountOrNone(cumulativeInputTokens), CountOrNone(cumulativeOutputTokens),
                             CountOrNone(cumulativeCacheReadTokens), name, StepIndexOr0(s)));
    }

    /** The posts of one not yet recorded step: items and edges, then telemetry. */
    method EmitCommitted(s: Step, fetched: Catalog)
      modifies this`turnActive, this`modelCatalog, this`postedModelEnum, this`cumulativeInputTokens,
               this`cumulativeOutputTokens, this`cumulativeCacheReadTokens, this`out, allocator
      ensures var e := CommitEffect(old(CoreValue()), s, fetched);
              CoreValue() == e.core && out == old(out) + e.events
    {
      EmitStep(s);
      MaybeEmitModelChange(s, fetched);
      MaybeEmitSessionUsage(s, fetched);
    }

    method ProcessCommittedStep(s: Step, fetched: Catalog)
      modifies this, allocator, gates
      ensures Value() == Commit(old(Value()), s, fetched)
      ensures gates.Value() == Act(old(gates.Value()), gates.cascade, Sight(s))
    {
      var key := StepKey(s);
      if key !in seen {
        if IsSettled(s) {
          seen := seen + {key};
        }
        EmitCommitted(s, fetched);
      }
      gates.MaybeHandleInteraction(s, key);
      gates.MaybeWithdrawInteraction(s, key);
    }

    method EmitPartialReasoningDelta(s: Step)
      modifies this`reasoningPrefixes, this`out
      ensures Value() == ReasoningStep(old(Value()), s)
    {
      if s.index.None? {
        return;
      }
      if s.planner.None? || s.planner.value.thinking.None? {
        return;
      }
      var i, text := s.index.value, s.planner.value.thinking.value;
      var started := i !in reasoningPrefixes;
      var forwarded := PrefixAt(reasoningPrefixes, i);
      if forwarded <= text && |text| > |forwarded| {
        PostEvent(ReasoningDelta(text[|forwarded|..], started, i));
      }
      reasoningPrefixes := reasoningPrefixes[i := text];
    }

    method EmitPartialDelta(s: Step)
      modifies this`prefixes, this`out
      ensures Value() == TextStep(old(Value()), s)
    {
      if s.index.None? {
        return;
      }
      if s.planner.None? || s.planner.value.modified.None? {
        return;
      }
      var i, text := s.index.value, s.planner.value.modified.value;
      var forwarded := PrefixAt(prefixes, i);
      if forwarded <= text && |text| > |forwarded| {
        PostEvent(TextDelta(text[|forwarded|..], i));
      }
      prefixes := prefixes[i := text];
    }

    method ProcessStreamStep(s: Step, fetched: Catalog)
      modifies this, allocator, gates
      ensures Value() == StreamStep(old(Value()), s, fetched)
      ensures gates.Value() == if IsGeneratingPlanner(s) then old(gates.Value())
                               else Act(old(gates.Value()), gates.cascade, Sight(s))
    {
      if IsGeneratingPlanner(s) {
        EmitPartialReasoningDelta(s);
        EmitPartialDelta(s);
        return;
      }
      ProcessCommittedStep(s, fetched);
      if s.index.Some? {
        prefixes := prefixes - {s.index.value};
        reasoningPrefixes := reasoningPrefixes - {s.index.value};
      }
    }
  }
}
