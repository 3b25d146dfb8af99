/**
 What one sighting of a step comes to, said of the fields agy sends: when it
 is recorded, which items it posts with which texts, and what it reports.
 */
module StepPosts {
  import opened Wrappers
  import opened JsonValues
  import opened PyText
  import opened CallIds
  import opened Steps
  import opened StepKeys
  import opened Reader
  import opened ExactlyOnce

  // ----- when a step is recorded -----

  /** agy will say nothing new of the step: it is a user's, or DONE, or ERROR. */
  predicate Finished(s: Step) {
    s.kind.UserInput? || s.status.Done? || s.status.Error?
  }

  /** WAITING, GENERATING or any other status before the end leaves no trace on the committed path. */
  lemma UnfinishedLeavesNoTrace(st: State, s: Step, fetched: Catalog)
    requires !s.kind.UserInput? && !s.status.Done? && !s.status.Error?
    ensures Commit(st, s, fetched) == st
  {
    UnsettledCommitsNothing(st.core, s, fetched);
  }

  /** A string field that is absent, of another type, or empty. */
  predicate Missing(o: Option<string>) {
    o.None? || o.value == ""
  }

  /** The first of `executionId` and `createdAt` that says anything says `mark`. */
  predicate HasMark(s: Step, mark: string) {
    && mark != ""
    && (s.executionId == Some(mark) || (Missing(s.executionId) && s.createdAt == Some(mark)))
  }

  /** The same place in the same trajectory; without a place, the same mark or none. */
  ghost predicate SameStep(s: Step, t: Step) {
    && s.trajectoryId == t.trajectoryId
    && s.index == t.index
    && (s.index.None? ==> forall mark :: HasMark(s, mark) <==> HasMark(t, mark))
  }

  lemma MarkIsDiscriminator(s: Step, mark: string)
    ensures HasMark(s, mark) <==> Discriminator(s) == Some(mark)
  {
  }

  lemma SameKeyExactly(s: Step, t: Step)
    ensures StepKey(s) == StepKey(t) <==> SameStep(s, t)
  {
    forall mark ensures HasMark(s, mark) <==> Discriminator(s) == Some(mark) {
      MarkIsDiscriminator(s, mark);
    }
    forall mark ensures HasMark(t, mark) <==> Discriminator(t) == Some(mark) {
      MarkIsDiscriminator(t, mark);
    }
    if Discriminator(s).Some? {
      assert HasMark(s, Discriminator(s).value);
    }
    if Discriminator(t).Some? {
      assert HasMark(t, Discriminator(t).value);
    }
  }

  /** What a sighting keeps from being committed again: the same step, once it is finished. */
  lemma RecordedExactly(st: State, s: Step, t: Step, fetched: Catalog)
    ensures StepKey(t) in Commit(st, s, fetched).seen
            <==> StepKey(t) in st.seen || (SameStep(s, t) && (s.kind.UserInput? || s.status.Done? || s.status.Error?))
  {
    SameKeyExactly(s, t);
  }

  // ----- which items a step posts -----

  /** The text of a planner step: the moderated one unless it is missing or empty, else the raw response. */
  predicate Says(p: Planner, text: string) {
    && text != ""
    && (p.modified == Some(text) || (Missing(p.modified) && p.response == Some(text)))
  }

  lemma {:induction false} CallEventsAt(calls: seq<ToolCall>, n: nat, step: int, a: Allocator)
    requires n <= |calls|
    ensures forall e | e in CallEvents(calls, n, step, a).events :: e.FunctionCall? && e.step == step
  {
    if n > 0 {
      CallEventsAt(calls, n - 1, step, a);
    }
  }

  /** A DONE planner step posts its text, if it has any, ahead of its calls, and nothing else. */
  lemma PlannerSays(s: Step, a: Allocator)
    requires s.kind.PlannerResponse? && s.status.Done?
    ensures var events := MapStep(s, a).events;
            && (forall text, i :: AssistantMessage(text, i) in events
                  <==> i == s.index.GetOr(0) && s.planner.Some? && Says(s.planner.value, text))
            && (forall k | 0 <= k < |events| :: events[k].FunctionCall? || (k == 0 && events[0].AssistantMessage?))
  {
    if s.planner.Some? {
      var p := s.planner.value;
      var text, calls := PlannerText(p), CallEvents(p.toolCalls, |p.toolCalls|, StepIndexOr0(s), a).events;
      CallEventsAt(p.toolCalls, |p.toolCalls|, StepIndexOr0(s), a);
      assert text != "" ==> Says(p, text);
      assert forall e :: e in MapStep(s, a).events
                <==> (text != "" && e == AssistantMessage(text, StepIndexOr0(s))) || e in calls;
    }
  }

  /** What a failed planner step says of its failure. */
  function Detail(p: Option<Planner>): string {
    if p.None? then ""
    else if p.value.error !in NOTHING then
      if p.value.error.Str? && !Blank(p.value.error.s) then ": " + Strip(p.value.error.s) else ""
    else if p.value.errorMessage.Str? && !Blank(p.value.errorMessage.s) then ": " + Strip(p.value.errorMessage.s)
    else ""
  }

  /** An ERROR planner step posts one message, whatever text it had: that it failed, and why as far as agy says. */
  lemma FailedPlannerSays(s: Step, a: Allocator)
    requires s.kind.PlannerResponse? && s.status.Error?
    ensures MapStep(s, a).events == [AssistantMessage(PLANNER_NOTICE + Detail(s.planner) + "]", s.index.GetOr(0))]
    ensures MapStep(s, a).allocator == a
  {
    if s.planner.Some? {
      TruthyExactly(s.planner.value.error);
    }
  }

  /** What agy sends of a result: the field depends on the kind of tool. */
  predicate Sends(s: Step, text: string) {
    || (s.kind.RunCommand? && s.runOutput == Some(text))
    || (s.kind.ListDirectory? && s.listing == Some(text))
    || (s.kind.AskQuestion? && s.answers == Some(text))
  }

  /** What is shown of a result of which agy sends nothing. */
  function Placeholder(s: Step): string {
    if s.status.Done? then ""
    else if Missing(s.toolName) then UNNAMED_TOOL_NOTICE
    else TOOL_NOTICE + s.toolName.value + NAMED_TOOL_NOTICE
  }

  predicate IsResultKind(s: Step) {
    || s.kind in {RunCommand, ListDirectory, AskQuestion}
    || (s.kind.OtherType? && !Missing(s.toolCallId))
  }

  /** A finished result posts one output: what agy sent, or else a placeholder; under agy's id if it has one. */
  lemma ResultSays(s: Step, a: Allocator)
    requires IsResultKind(s) && (s.status.Done? || s.status.Error?)
    ensures var events := MapStep(s, a).events;
            && |events| == 1 && events[0].FunctionCallOutput? && events[0].step == s.index.GetOr(0)
            && (Sends(s, events[0].output) || ((forall text :: !Sends(s, text)) && events[0].output == Placeholder(s)))
            && (!Missing(s.toolCallId) ==> events[0].call == s.toolCallId.value && MapStep(s, a).allocator == a)
            && (Missing(s.toolCallId) ==> (events[0].call, MapStep(s, a).allocator) == Match(a))
  {
    ResultMapping(s, a);
    var output := MapStep(s, a).events[0].output;
    if ExtractedOutput(s).Some? {
      assert Sends(s, output);
    }
  }

  /** Everything else posts no item and leaves the allocator alone. */
  lemma NothingElseSpeaks(s: Step, a: Allocator)
    requires || s.kind.NoType?
             || (!s.kind.UserInput? && !s.status.Done? && !s.status.Error?)
             || (s.kind.OtherType? && Missing(s.toolCallId))
    ensures MapStep(s, a) == Mapping([], a)
  {
  }

  /** A user turn says its response verbatim, or else its non-empty items, one to a line. */
  predicate UserSays(t: UserTurn, text: string) {
    if t.response.Some? && !Blank(t.response.value) then text == t.response.value
    else text == Lines(Written(t.items))
  }

  function Lines(lines: seq<string>): string {
    if lines == [] then ""
    else if |lines| == 1 then lines[0]
    else Lines(lines[..|lines| - 1]) + "\n" + lines[|lines| - 1]
  }

  lemma {:induction false} JoinIsLines(lines: seq<string>)
    ensures Join(lines, "\n") == Lines(lines)
  {
    if |lines| > 1 {
      JoinSnoc(lines[..|lines| - 1], lines[|lines| - 1]);
      JoinIsLines(lines[..|lines| - 1]);
      assert lines == lines[..|lines| - 1] + [lines[|lines| - 1]];
    }
  }

  lemma {:induction false} JoinSnoc(lines: seq<string>, last: string)
    requires lines != []
    ensures Join(lines + [last], "\n") == Join(lines, "\n") + "\n" + last
  {
    assert (lines + [last])[1..] == lines[1..] + [last];
    if |lines| > 1 {
      JoinSnoc(lines[1..], last);
      Regroup(lines[0], "\n", Join(lines[1..], "\n"), "\n" + last);
    }
  }

  lemma Regroup(a: string, b: string, c: string, d: string)
    ensures a + b + (c + d) == (a + b + c) + d
  {
  }

  function Written(items: seq<string>): seq<string> {
    if items == [] then []
    else Written(items[..|items| - 1]) + (if items[|items| - 1] == "" then [] else [items[|items| - 1]])
  }

  lemma {:induction false} FilledIsWritten(items: seq<string>)
    ensures Filled(items) == Written(items)
  {
    if items != [] {
      FilledSnoc(items[..|items| - 1], items[|items| - 1]);
      FilledIsWritten(items[..|items| - 1]);
      assert items == items[..|items| - 1] + [items[|items| - 1]];
    }
  }

  lemma {:induction false} FilledSnoc(items: seq<string>, last: string)
    ensures Filled(items + [last]) == Filled(items) + (if last == "" then [] else [last])
  {
    if items != [] {
      assert (items + [last])[1..] == items[1..] + [last];
      FilledSnoc(items[1..], last);
    } else {
      assert (items + [last])[1..] == [];
    }
  }

  lemma UserTurnSays(s: Step, a: Allocator)
    requires s.kind.UserInput?
    ensures MapStep(s, a).allocator == a
    ensures var events := MapStep(s, a).events;
            || (|events| == 1 && events[0].UserMessage? && !Blank(events[0].text)
                && s.userTurn.Some? && UserSays(s.userTurn.value, events[0].text))
            || (events == [] && (s.userTurn.Some? ==> forall text :: UserSays(s.userTurn.value, text) ==> Blank(text)))
  {
    if s.userTurn.Some? {
      FilledIsWritten(s.userTurn.value.items);
      JoinIsLines(Written(s.userTurn.value.items));
    }
  }

  // ----- what a step reports -----

  /** The catalog names the model: by its first entry that has a display name for it, else by itself. */
  ghost predicate Named(catalog: Catalog, model: string, name: string) {
    if exists i :: 0 <= i < |catalog| && catalog[i].model == model && catalog[i].displayName != "" then
      exists i :: 0 <= i < |catalog| && catalog[i] == CatalogEntry(model, name) && name != ""
                  && forall j | 0 <= j < i :: catalog[j].model != model || catalog[j].displayName == ""
    else name == model
  }

  lemma {:induction false} DisplayNameIs(model: string, catalog: Catalog)
    ensures Named(catalog, model, DisplayName(model, catalog))
  {
    if catalog != [] {
      DisplayNameIs(model, catalog[1..]);
      assert forall i | 0 < i < |catalog| :: catalog[i] == catalog[1..][i - 1];
      if catalog[0].model == model && catalog[0].displayName != "" {
        assert catalog[0] == CatalogEntry(model, DisplayName(model, catalog));
      } else if i :| 0 <= i < |catalog| && catalog[i].model == model && catalog[i].displayName != "" {
        assert catalog[1..][i - 1] == catalog[i];
        var k :| 0 <= k < |catalog| - 1 && catalog[1..][k] == CatalogEntry(model, DisplayName(model, catalog[1..]))
                 && forall j | 0 <= j < k :: catalog[1..][j].model != model || catalog[1..][j].displayName == "";
        assert catalog[k + 1] == catalog[1..][k];
      }
    }
  }

  function CatalogOf(c: Core, fetched: Catalog): Catalog {
    c.catalog.GetOr(fetched)
  }

  /** A user turn asks for the model of its plan, or else for the requested one. */
  predicate Asks(s: Step, model: string) {
    && s.kind.UserInput? && s.userTurn.Some? && model != ""
    && (s.userTurn.value.planModel == Some(model)
        || (Missing(s.userTurn.value.planModel) && s.userTurn.value.requestedModel == Some(model)))
  }

  lemma AskedIsRequested(s: Step, model: string)
    ensures Asks(s, model) <==> RequestedModel(s) == Some(model)
  {
  }

  /** A model asked for becomes the baseline, and is announced by its name when it was not the baseline before. */
  lemma ModelAnnounced(c: Core, s: Step, fetched: Catalog)
    ensures var e := CommitEffect(c, s, fetched);
            && (forall model | Asks(s, model) ::
                  && e.core.postedModel == Some(model)
                  && (AnnouncesModel(e.events) <==> c.postedModel != Some(model)))
            && ((forall model :: !Asks(s, model)) ==> e.core.postedModel == c.postedModel && !AnnouncesModel(e.events))
            && (forall x | x in e.events && x.ModelChange? ::
                  && x.step == s.index.GetOr(0)
                  && exists model :: Asks(s, model) && Named(CatalogOf(c, fetched), model, x.model))
  {
    var e := CommitEffect(c, s, fetched);
    CommitModel(c, s, fetched);
    forall model ensures Asks(s, model) <==> RequestedModel(s) == Some(model) {
      AskedIsRequested(s, model);
    }
    forall x | x in e.events && x.ModelChange?
      ensures x.step == s.index.GetOr(0)
      ensures exists model :: Asks(s, model) && Named(CatalogOf(c, fetched), model, x.model)
    {
      MapStepGivesItems(s, c.allocator);
      assert x in ModelEffect(EmitEffect(c, s).core, s, fetched).events;
      DisplayNameIs(RequestedModel(s).value, CatalogOf(c, fetched));
      assert Asks(s, RequestedModel(s).value);
    }
  }

  function AtLeastZero(n: int): nat {
    if n < 0 then 0 else n
  }

  /** A completed model call that says anything of what it took. */
  predicate Took(s: Step) {
    && s.kind.PlannerResponse? && s.status.Done? && s.usage.Some?
    && var u := s.usage.value; u.input > 0 || u.output > 0 || u.cacheRead > 0 || !Missing(u.model)
  }

  function Shown(total: int): Option<int> {
    if total == 0 then None else Some(total)
  }

  /** The event reports the totals, and the model of the step under the name it is given. */
  ghost predicate ReportsTotals(x: Event, s: Step, c: Core, catalog: Catalog)
    requires s.usage.Some?
  {
    && x.SessionUsage? && x.step == s.index.GetOr(0)
    && x.inputTokens == Shown(c.input) && x.outputTokens == Shown(c.output) && x.cacheReadTokens == Shown(c.cacheRead)
    && var model := s.usage.value.model;
       if Missing(model) then x.pricedAs.None?
       else x.pricedAs.Some? && Named(catalog, model.value, x.pricedAs.value)
  }

  lemma UsageSays(c: Core, s: Step, fetched: Catalog)
    requires Took(s)
    ensures var e, u := UsageEffect(c, s, fetched), s.usage.value;
            && e.core.input == c.input + AtLeastZero(u.input)
            && e.core.output == c.output + AtLeastZero(u.output)
            && e.core.cacheRead == c.cacheRead + AtLeastZero(u.cacheRead)
            && |e.events| == 1 && ReportsTotals(e.events[0], s, e.core, CatalogOf(c, fetched))
  {
    if !Missing(s.usage.value.model) {
      DisplayNameIs(s.usage.value.model.value, CatalogOf(c, fetched));
    }
  }

  /** What it took is added to the totals and the new totals are reported, under its model's name; nothing else is. */
  lemma UsageReported(c: Core, s: Step, fetched: Catalog)
    ensures var e := CommitEffect(c, s, fetched);
            if !Took(s) then Totals(e.core) == Totals(c) && forall x | x in e.events :: !x.SessionUsage?
            else
              var u := s.usage.value;
              && e.core.input == c.input + AtLeastZero(u.input)
              && e.core.output == c.output + AtLeastZero(u.output)
              && e.core.cacheRead == c.cacheRead + AtLeastZero(u.cacheRead)
              && e.events != [] && ReportsTotals(e.events[|e.events| - 1], s, e.core, CatalogOf(c, fetched))
  {
    var e1 := EmitEffect(c, s);
    var e2 := ModelEffect(e1.core, s, fetched);
    if Took(s) {
      UsageSays(e2.core, s, fetched);
    } else {
      MapStepGivesItems(s, c.allocator);
      assert UsageOf(s).None?;
    }
  }

  // ----- in a whole run -----

  lemma {:induction false} NonDeltaIn(events: seq<Event>, e: Event)
    requires e in NonDelta(events)
    ensures e in events
  {
    if e in NonDelta(events[..|events| - 1]) {
      NonDeltaIn(events[..|events| - 1], e);
    }
  }

  /** A pass posts what each of its steps maps to. */
  lemma {:induction false} MirrorPosts(cascade: string, steps: seq<Step>, s: Step, fetched: Catalog)
    returns (a: Allocator)
    requires s in steps
    ensures forall e | e in MapStep(s, a).events :: e in Mirror(cascade, steps, fetched).events
  {
    var init, last := steps[..|steps| - 1], steps[|steps| - 1];
    if s in init {
      a := MirrorPosts(cascade, init, s, fetched);
    } else {
      var before := Mirror(cascade, init, fetched);
      a := before.core.allocator;
      var telemetry := CommitShape(before.core, last, fetched);
    }
  }

  /** However often and in whatever unfinished forms it was sighted before, a finished step's items are posted. */
  lemma FinishedStepIsPosted(cascade: string, xs: seq<Sighting>, fetched: Catalog, x: Sighting) returns (a: Allocator)
    requires x in xs && Finished(x.step)
    requires forall y | y in xs && Finished(y.step) && SameStep(y.step, x.step) :: y.step == x.step
    ensures forall e | e in MapStep(x.step, a).events :: e in SeeAll(FreshState(cascade), xs, fetched).out
  {
    var out, firsts := SeeAll(FreshState(cascade), xs, fetched).out, FirstSettled(xs);
    FirstSettledKeys(xs);
    EachKeyCommitsOnce(cascade, xs, fetched);
    assert StepKey(x.step) in SettledKeys(xs);
    var s :| s in firsts && StepKey(s) == StepKey(x.step);
    var y :| y in xs && y.step == s;
    SameKeyExactly(s, x.step);
    a := MirrorPosts(cascade, firsts, s, fetched);
    forall e | e in MapStep(x.step, a).events ensures e in out {
      NonDeltaIn(out, e);
    }
  }

  /** In particular a finished result's output is, as agy sent it or else a placeholder. */
  lemma FinishedResultIsPosted(cascade: string, xs: seq<Sighting>, fetched: Catalog, x: Sighting)
    returns (output: string)
    requires x in xs && IsResultKind(x.step) && (x.step.status.Done? || x.step.status.Error?)
    requires !Missing(x.step.toolCallId)
    requires forall y | y in xs && Finished(y.step) && SameStep(y.step, x.step) :: y.step == x.step
    ensures FunctionCallOutput(x.step.toolCallId.value, output, x.step.index.GetOr(0))
            in SeeAll(FreshState(cascade), xs, fetched).out
    ensures Sends(x.step, output) || ((forall text :: !Sends(x.step, text)) && output == Placeholder(x.step))
  {
    var a := FinishedStepIsPosted(cascade, xs, fetched, x);
    ResultSays(x.step, a);
    var e := MapStep(x.step, a).events[0];
    output := e.output;
    assert e in MapStep(x.step, a).events;
  }

  /** And so is the text of a finished planner step. */
  lemma FinishedTextIsPosted(cascade: string, xs: seq<Sighting>, fetched: Catalog, x: Sighting, text: string)
    requires x in xs && x.step.kind.PlannerResponse? && x.step.status.Done?
    requires x.step.planner.Some? && Says(x.step.planner.value, text)
    requires forall y | y in xs && Finished(y.step) && SameStep(y.step, x.step) :: y.step == x.step
    ensures AssistantMessage(text, x.step.index.GetOr(0)) in SeeAll(FreshState(cascade), xs, fetched).out
  {
    var a := FinishedStepIsPosted(cascade, xs, fetched, x);
    PlannerSays(x.step, a);
  }
}
