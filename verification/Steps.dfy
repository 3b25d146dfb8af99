/**
 agy trajectory steps and their mapping to session events
 (omnicraft/antigravity_native_steps.py). A step is a record of the JSON fields
 the code reads, each already narrowed to the type the code accepts.
 */
module Steps {
  import opened Wrappers
  import opened JsonValues
  import opened PyText
  import opened CallIds

  datatype StepType = UserInput | PlannerResponse | RunCommand | ListDirectory | AskQuestion | OtherType | NoType
  datatype Status = Done | Error | Waiting | Generating | OtherStatus

  datatype ToolArgs = NoArguments | BadJson | NotAnObject | Arguments(fields: map<string, Json>)
  datatype ToolCall = Malformed | ToolCall(id: Option<string>, name: Option<string>, args: ToolArgs)

  datatype UserTurn = UserTurn(response: Option<string>, items: seq<string>,
                               planModel: Option<string>, requestedModel: Option<string>)
  datatype Planner = Planner(response: Option<string>, modified: Option<string>, thinking: Option<string>,
                             error: Json, errorMessage: Json, toolCalls: seq<ToolCall>)
  datatype Usage = Usage(input: int, output: int, cacheRead: int, model: Option<string>)
  datatype Request = AskRequest(ask: Json) | PermissionRequest(permission: Json) | UnknownRequest

  datatype Step = Step(
    kind: StepType,
    status: Status,
    trajectoryId: Option<string>,
    index: Option<int>,
    executionId: Option<string>,
    createdAt: Option<string>,
    userTurn: Option<UserTurn>,
    planner: Option<Planner>,
    toolCallId: Option<string>,
    toolName: Option<string>,
    runOutput: Option<string>,
    listing: Option<string>,
    answers: Option<string>,
    usage: Option<Usage>,
    request: Option<Request>)

  datatype SessionStatus = Running | Idle | Failed

  datatype Event =
    | UserMessage(text: string)
    | AssistantMessage(text: string, step: int)
    | FunctionCall(call: string, name: string, arguments: map<string, Json>, step: int)
    | FunctionCallOutput(call: string, output: string, step: int)
    | StatusEdge(status: SessionStatus)
    | TextDelta(delta: string, step: int)
    | ReasoningDelta(delta: string, started: bool, step: int)
    | SessionUsage(inputTokens: Option<int>, outputTokens: Option<int>, cacheReadTokens: Option<int>,
                   pricedAs: Option<string>, step: int)
    | ModelChange(model: string, step: int)

  function StepIndexOr0(s: Step): int { s.index.GetOr(0) }

  /** `_execution_discriminator`: the first of `executionId` and `createdAt` that is a non-empty string. */
  function Discriminator(s: Step): Option<string> {
    if NonEmpty(s.executionId).Some? then s.executionId else NonEmpty(s.createdAt)
  }

  // ----- interactions -----

  datatype InteractionKind = Question | Permission
  datatype Pending = Pending(kind: InteractionKind, trajectoryId: string, index: int, spec: Json)

  /** `pending_interaction` */
  function PendingInteraction(s: Step): Option<Pending> {
    if s.status != Waiting then None
    else if s.request.None? then None
    else if s.trajectoryId.None? then None
    else
      match s.request.value
      case AskRequest(ask) => Some(Pending(Question, s.trajectoryId.value, StepIndexOr0(s), ask))
      case PermissionRequest(p) => Some(Pending(Permission, s.trajectoryId.value, StepIndexOr0(s), p))
      case UnknownRequest => None
  }

  // ----- texts -----

  /** `_user_input_text` */
  function UserText(t: Option<UserTurn>): string {
    if t.None? then ""
    else if t.value.response.Some? && !Blank(t.value.response.value) then t.value.response.value
    else
      var joined := Join(Filled(t.value.items), "\n");
      if Blank(joined) then "" else joined
  }

  function Filled(items: seq<string>): seq<string> {
    if items == [] then []
    else (if items[0] != "" then [items[0]] else []) + Filled(items[1..])
  }

  /** The moderated text when there is one, else the raw response. */
  function PlannerText(p: Planner): string {
    NonEmpty(p.modified).GetOr(p.response.GetOr(""))
  }

  const PLANNER_NOTICE := "[antigravity: the model did not complete this turn (status ERROR)"
  const TOOL_NOTICE := "[antigravity: "
  const NAMED_TOOL_NOTICE := " did not complete (status ERROR)]"
  const UNNAMED_TOOL_NOTICE := "[antigravity: tool did not complete (status ERROR)]"

  /** The detail of a failed planner: `error` when it is truthy, even if it is no text, else `errorMessage`. */
  function PlannerErrorText(p: Option<Planner>): string {
    var raw := if p.None? then Null else if Truthy(p.value.error) then p.value.error else p.value.errorMessage;
    PLANNER_NOTICE + (if !raw.Str? || Blank(raw.s) then "" else ": " + Strip(raw.s)) + "]"
  }

  /** `_tool_result_output` */
  function ExtractedOutput(s: Step): Option<string> {
    match s.kind
    case RunCommand => s.runOutput
    case ListDirectory => s.listing
    case AskQuestion => s.answers
    case _ => None
  }

  function ToolErrorOutput(s: Step): string {
    match NonEmpty(s.toolName)
    case Some(name) => TOOL_NOTICE + name + NAMED_TOOL_NOTICE
    case None => UNNAMED_TOOL_NOTICE
  }

  // ----- tool calls -----

  /** A tool call that is mirrored: an object with a name and arguments that parse. */
  predicate Mirrored(c: ToolCall) {
    c.ToolCall? && NonEmpty(c.name).Some? && !c.args.BadJson?
  }

  function VisibleArguments(args: ToolArgs): map<string, Json> {
    if args.Arguments? then map k | k in args.fields && k !in {"toolAction", "toolSummary"} :: args.fields[k] else map[]
  }

  datatype Mapping = Mapping(events: seq<Event>, allocator: Allocator)

  /** `_function_call_events`, as far as the first `n` calls. */
  function CallEvents(calls: seq<ToolCall>, n: nat, step: int, a: Allocator): Mapping
    requires n <= |calls|
  {
    if n == 0 then Mapping([], a)
    else
      var before := CallEvents(calls, n - 1, step, a);
      var c := calls[n - 1];
      if !Mirrored(c) then before
      else
        var (id, a') := if NonEmpty(c.id).Some? then (c.id.value, before.allocator) else Claim(before.allocator);
        Mapping(before.events + [FunctionCall(id, c.name.value, VisibleArguments(c.args), step)], a')
  }

  predicate IsKnownResult(s: Step) {
    s.kind.RunCommand? || s.kind.ListDirectory? || s.kind.AskQuestion?
  }

  /** A step that closes a tool call: a known result type, or any other step stamped with a call id. */
  predicate IsToolResult(s: Step) {
    && !s.kind.NoType? && !s.kind.UserInput? && !s.kind.PlannerResponse?
    && (IsKnownResult(s) || NonEmpty(s.toolCallId).Some?)
  }

  predicate IsTerminal(s: Step) { s.status.Done? || s.status.Error? }

  function ResultOutput(s: Step): string {
    ExtractedOutput(s).GetOr(if s.status.Error? then ToolErrorOutput(s) else "")
  }

  /** `map_step_to_events` */
  function MapStep(s: Step, a: Allocator): Mapping {
    match s.kind
    case NoType => Mapping([], a)
    case UserInput =>
      Mapping(if UserText(s.userTurn) == "" then [] else [UserMessage(UserText(s.userTurn))], a)
    case PlannerResponse =>
      if s.status.Error? then Mapping([AssistantMessage(PlannerErrorText(s.planner), StepIndexOr0(s))], a)
      else if !s.status.Done? || s.planner.None? then Mapping([], a)
      else
        var text := PlannerText(s.planner.value);
        var calls := s.planner.value.toolCalls;
        var m := CallEvents(calls, |calls|, StepIndexOr0(s), a);
        Mapping((if text == "" then [] else [AssistantMessage(text, StepIndexOr0(s))]) + m.events, m.allocator)
    case _ =>
      if !IsToolResult(s) || !IsTerminal(s) then Mapping([], a)
      else
        var (id, a') := if NonEmpty(s.toolCallId).Some? then (s.toolCallId.value, a) else Match(a);
        Mapping([FunctionCallOutput(id, ResultOutput(s), StepIndexOr0(s))], a')
  }

  /** A terminal result step maps to one output, under agy's id or else the allocator's match. */
  lemma ResultMapping(s: Step, a: Allocator)
    requires IsToolResult(s) && IsTerminal(s)
    ensures MapStep(s, a) ==
            if NonEmpty(s.toolCallId).Some?
            then Mapping([FunctionCallOutput(s.toolCallId.value, ResultOutput(s), StepIndexOr0(s))], a)
            else Mapping([FunctionCallOutput(Match(a).0, ResultOutput(s), StepIndexOr0(s))], Match(a).1)
  {
  }

  /** A DONE planner step with moderated text leads with exactly that text. */
  lemma MessageMapping(s: Step, a: Allocator)
    requires s.kind.PlannerResponse? && s.status.Done? && s.planner.Some?
    requires NonEmpty(s.planner.value.modified).Some?
    ensures MapStep(s, a).events != []
    ensures MapStep(s, a).events[0] == AssistantMessage(s.planner.value.modified.value, StepIndexOr0(s))
  {
  }

  method FunctionCallEvents(calls: seq<ToolCall>, step: int, allocator: ToolCallIdAllocator)
    returns (events: seq<Event>)
    modifies allocator
    ensures Mapping(events, allocator.Value()) == CallEvents(calls, |calls|, step, old(allocator.Value()))
  {
    events := [];
    for i := 0 to |calls|
      invariant Mapping(events, allocator.Value()) == CallEvents(calls, i, step, old(allocator.Value()))
    {
      var entry := calls[i];
      if entry.Malformed? {
        continue;
      }
      if NonEmpty(entry.name).None? {
        continue;
      }
      if entry.args.BadJson? {
        continue;
      }
      var callId;
      if NonEmpty(entry.id).Some? {
        callId := entry.id.value;
      } else {
        callId := allocator.ClaimCallId();
      }
      events := events + [FunctionCall(callId, entry.name.value, VisibleArguments(entry.args), step)];
    }
  }

  method FunctionCallOutputEvent(step: int, output: string, realId: Option<string>, allocator: ToolCallIdAllocator)
    returns (event: Event)
    modifies allocator
    ensures event.FunctionCallOutput? && event.output == output && event.step == step
    ensures (event.call, allocator.Value()) ==
            if realId.Some? then (realId.value, old(allocator.Value())) else Match(old(allocator.Value()))
  {
    var callId;
    if realId.Some? {
      callId := realId.value;
    } else {
      callId := allocator.MatchOutputId();
    }
    event := FunctionCallOutput(callId, output, step);
  }

  method MapStepToEvents(s: Step, allocator: ToolCallIdAllocator) returns (events: seq<Event>)
    modifies allocator
    ensures Mapping(events, allocator.Value()) == MapStep(s, old(allocator.Value()))
  {
    events := [];
    if s.kind.NoType? {
      return;
    }
    if s.kind.UserInput? {
      var text := UserText(s.userTurn);
      if text == "" {
        return;
      }
      return [UserMessage(text)];
    }
    if s.kind.PlannerResponse? {
      if s.status.Error? {
        return [AssistantMessage(PlannerErrorText(s.planner), StepIndexOr0(s))];
      }
      if !s.status.Done? {
        return;
      }
      if s.planner.Some? {
        var text := PlannerText(s.planner.value);
        if text != "" {
          events := events + [AssistantMessage(text, StepIndexOr0(s))];
        }
        if s.planner.value.toolCalls != [] {
          var calls := FunctionCallEvents(s.planner.value.toolCalls, StepIndexOr0(s), allocator);
          events := events + calls;
        }
      }
      return;
    }
    var resultCallId := NonEmpty(s.toolCallId);
    if IsKnownResult(s) || resultCallId.Some? {
      if !s.status.Done? && !s.status.Error? {
        return;
      }
      var output := ExtractedOutput(s);
      if output.None? {
        output := Some(if s.status.Error? then ToolErrorOutput(s) else "");
      }
      var event := FunctionCallOutputEvent(StepIndexOr0(s), output.value, resultCallId, allocator);
      events := [event];
    }
  }

  // ----- the invocation and result sides agree on ids -----

  function CallIdsOf(events: seq<Event>): seq<string> {
    if events == [] then []
    else CallIdsOf(events[..|events| - 1])
         + (if events[|events| - 1].FunctionCall? then [events[|events| - 1].call] else [])
  }

  function OutputIdsOf(events: seq<Event>): seq<string> {
    if events == [] then []
    else OutputIdsOf(events[..|events| - 1])
         + (if events[|events| - 1].FunctionCallOutput? then [events[|events| - 1].call] else [])
  }

  lemma {:induction false} IdsOfConcat(a: seq<Event>, b: seq<Event>)
    ensures CallIdsOf(a + b) == CallIdsOf(a) + CallIdsOf(b)
    ensures OutputIdsOf(a + b) == OutputIdsOf(a) + OutputIdsOf(b)
  {
    if b == [] {
      assert a + b == a;
    } else {
      assert (a + b)[..|a + b| - 1] == a + b[..|b| - 1];
      IdsOfConcat(a, b[..|b| - 1]);
    }
  }

  lemma OneId(e: Event)
    ensures CallIdsOf([e]) == if e.FunctionCall? then [e.call] else []
    ensures OutputIdsOf([e]) == if e.FunctionCallOutput? then [e.call] else []
  {
    assert [e][..0] == [];
  }

  /** An object with a name and arguments that are absent, no object, or parse. */
  predicate WellFormed(c: ToolCall) {
    c.ToolCall? && c.name.Some? && c.name.value != "" && !c.args.BadJson?
  }

  function WellFormedCalls(calls: seq<ToolCall>): seq<ToolCall> {
    if calls == [] then []
    else WellFormedCalls(calls[..|calls| - 1]) + (if WellFormed(calls[|calls| - 1]) then [calls[|calls| - 1]] else [])
  }

  /** The event shows the call: its name, its arguments less the display ones, and its agy id when it has one. */
  ghost predicate Shows(e: Event, c: ToolCall) {
    && e.FunctionCall? && WellFormed(c) && e.name == c.name.value
    && (c.id.Some? && c.id.value != "" ==> e.call == c.id.value)
    && (forall k :: k in e.arguments
                    <==> c.args.Arguments? && k in c.args.fields && k != "toolAction" && k != "toolSummary")
    && (forall k | k in e.arguments :: e.arguments[k] == c.args.fields[k])
  }

  /** One event for each well-formed call and none for any other, in order. */
  lemma {:induction false} CallsShownInOrder(calls: seq<ToolCall>, n: nat, step: int, a: Allocator)
    requires n <= |calls|
    ensures var events, shown := CallEvents(calls, n, step, a).events, WellFormedCalls(calls[..n]);
            |events| == |shown| && forall j | 0 <= j < |shown| :: Shows(events[j], shown[j])
  {
    if n > 0 {
      CallsShownInOrder(calls, n - 1, step, a);
      assert calls[..n][..n - 1] == calls[..n - 1];
    }
  }

  /** The agy ids of the calls a planner step mirrors, in order. */
  function MirroredIds(calls: seq<ToolCall>): seq<string> {
    if calls == [] then []
    else
      var c := calls[|calls| - 1];
      MirroredIds(calls[..|calls| - 1]) + (if Mirrored(c) && NonEmpty(c.id).Some? then [c.id.value] else [])
  }

  /** agy stamped ids on both ends of every tool call of the step. */
  predicate HasAgyIds(s: Step) {
    && (s.planner.Some? ==> forall c | c in s.planner.value.toolCalls :: Mirrored(c) ==> NonEmpty(c.id).Some?)
    && (IsToolResult(s) ==> NonEmpty(s.toolCallId).Some?)
  }

  function StepCallIds(s: Step): seq<string> {
    if s.kind.PlannerResponse? && s.status.Done? && s.planner.Some? then MirroredIds(s.planner.value.toolCalls) else []
  }

  function StepOutputIds(s: Step): seq<string> {
    if IsToolResult(s) && IsTerminal(s) && NonEmpty(s.toolCallId).Some? then [s.toolCallId.value] else []
  }

  lemma MirroredIdsTake(calls: seq<ToolCall>, n: nat)
    requires 0 < n <= |calls|
    ensures var c := calls[n - 1];
            MirroredIds(calls[..n])
            == if Mirrored(c) && NonEmpty(c.id).Some? then MirroredIds(calls[..n - 1]) + [c.id.value]
               else MirroredIds(calls[..n - 1])
  {
    assert calls[..n][..n - 1] == calls[..n - 1];
  }

  /** The last of `n` calls, when it has an agy id, adds its event and leaves the allocator alone. */
  lemma CallEventsLast(calls: seq<ToolCall>, n: nat, step: int, a: Allocator)
    requires 0 < n <= |calls| && (Mirrored(calls[n - 1]) ==> NonEmpty(calls[n - 1].id).Some?)
    ensures var c, before, after := calls[n - 1], CallEvents(calls, n - 1, step, a), CallEvents(calls, n, step, a);
            && after.allocator == before.allocator
            && CallIdsOf(after.events) == (if Mirrored(c) then CallIdsOf(before.events) + [c.id.value] else CallIdsOf(before.events))
            && OutputIdsOf(after.events) == OutputIdsOf(before.events)
  {
    var c, before := calls[n - 1], CallEvents(calls, n - 1, step, a);
    if Mirrored(c) {
      var e := FunctionCall(c.id.value, c.name.value, VisibleArguments(c.args), step);
      assert CallEvents(calls, n, step, a).events == before.events + [e];
      OneId(e);
      IdsOfConcat(before.events, [e]);
      assert OutputIdsOf(before.events) + [] == OutputIdsOf(before.events);
    }
  }

  lemma {:induction false} CallEventsIds(calls: seq<ToolCall>, n: nat, step: int, a: Allocator)
    requires n <= |calls|
    requires forall c | c in calls :: Mirrored(c) ==> NonEmpty(c.id).Some?
    ensures CallEvents(calls, n, step, a).allocator == a
    ensures CallIdsOf(CallEvents(calls, n, step, a).events) == MirroredIds(calls[..n])
    ensures OutputIdsOf(CallEvents(calls, n, step, a).events) == []
  {
    if n > 0 {
      assert calls[n - 1] in calls;
      CallEventsIds(calls, n - 1, step, a);
      CallEventsLast(calls, n, step, a);
      MirroredIdsTake(calls, n);
    }
  }

  /**
   With agy ids, what a step opens and closes depends on the step alone: the
   fallback allocator is never consulted, and a terminal result step closes
   exactly one call, its own, whether or not there is an extractor for its type.
   */
  lemma MapStepIds(s: Step, a: Allocator)
    requires HasAgyIds(s)
    ensures MapStep(s, a).allocator == a
    ensures CallIdsOf(MapStep(s, a).events) == StepCallIds(s)
    ensures OutputIdsOf(MapStep(s, a).events) == StepOutputIds(s)
  {
    var events := MapStep(s, a).events;
    if s.kind.PlannerResponse? && s.status.Done? && s.planner.Some? {
      var calls := s.planner.value.toolCalls;
      CallEventsIds(calls, |calls|, StepIndexOr0(s), a);
      assert calls[..|calls|] == calls;
      var text := PlannerText(s.planner.value);
      var head := if text == "" then [] else [AssistantMessage(text, StepIndexOr0(s))];
      IdsOfConcat(head, CallEvents(calls, |calls|, StepIndexOr0(s), a).events);
      assert head != [] ==> head[..0] == [];
    } else if events != [] {
      assert events[..0] == [];
    }
  }
}
