/**
 What the text and reasoning deltas of one step index spell, whatever other
 sightings are interleaved with its snapshots.
 */
module TextDeltas {
  import opened Wrappers
  import opened Sequences
  import opened JsonValues
  import opened Steps
  import opened StepKeys
  import opened Reader
  import opened ExactlyOnce

  /** The two growing texts of a planner step. */
  datatype Channel = Text | Thinking

  function Forwarded(st: State, ch: Channel): map<int, string> {
    match ch
    case Text => st.prefixes
    case Thinking => st.reasoning
  }

  /** A planner step that is still being written. */
  predicate InProgress(s: Step) {
    s.kind.PlannerResponse? && s.status.Generating?
  }

  /** What a snapshot adds to the text before it: nothing unless it starts with that text. */
  function Extension(before: string, after: string): string {
    if |before| <= |after| && after[..|before|] == before then after[|before|..] else ""
  }

  /** The cumulative snapshot of the channel that a sighting carries for index `i`. */
  function Snapshot(ch: Channel, i: int, x: Sighting): Option<string> {
    if x.path.Polled? || !InProgress(x.step) || x.step.index != Some(i) || x.step.planner.None? then None
    else
      match ch
      case Text => x.step.planner.value.modified
      case Thinking => x.step.planner.value.thinking
  }

  /** A committed step on the stream retires the live text of its index. */
  predicate Resets(x: Sighting, i: int) {
    x.path.Streamed? && !InProgress(x.step) && x.step.index == Some(i)
  }

  function Snapshots(ch: Channel, i: int, xs: seq<Sighting>): seq<string> {
    if xs == [] then []
    else
      Snapshots(ch, i, xs[..|xs| - 1])
      + (match Snapshot(ch, i, xs[|xs| - 1]) case Some(text) => [text] case None => [])
  }

  function DeltaOf(ch: Channel, i: int, e: Event): string {
    match ch
    case Text => if e.TextDelta? && e.step == i then e.delta else ""
    case Thinking => if e.ReasoningDelta? && e.step == i then e.delta else ""
  }

  /** The deltas of index `i`, joined. */
  function Spelled(ch: Channel, i: int, events: seq<Event>): string {
    if events == [] then ""
    else Spelled(ch, i, events[..|events| - 1]) + DeltaOf(ch, i, events[|events| - 1])
  }

  function Latest(start: string, snapshots: seq<string>): string {
    if snapshots == [] then start else snapshots[|snapshots| - 1]
  }

  /** What a reader that has forwarded `start` adds, snapshot by snapshot. */
  function Emitted(start: string, snapshots: seq<string>): string {
    if snapshots == [] then ""
    else
      var before := snapshots[..|snapshots| - 1];
      Emitted(start, before) + Extension(Latest(start, before), snapshots[|snapshots| - 1])
  }

  // ----- one sighting -----

  lemma {:induction false} SpelledConcat(ch: Channel, i: int, a: seq<Event>, b: seq<Event>)
    ensures Spelled(ch, i, a + b) == Spelled(ch, i, a) + Spelled(ch, i, b)
  {
    if b == [] {
      assert a + b == a;
    } else {
      assert (a + b)[..|a + b| - 1] == a + b[..|b| - 1];
      SpelledConcat(ch, i, a, b[..|b| - 1]);
    }
  }

  lemma {:induction false} SpellsNothing(ch: Channel, i: int, events: seq<Event>)
    requires NonDelta(events) == events
    ensures Spelled(ch, i, events) == ""
  {
    if events != [] {
      NonDeltaShorter(events[..|events| - 1]);
      SpellsNothing(ch, i, events[..|events| - 1]);
    }
  }

  lemma {:induction false} NonDeltaShorter(events: seq<Event>)
    ensures |NonDelta(events)| <= |events|
  {
    if events != [] {
      NonDeltaShorter(events[..|events| - 1]);
    }
  }

  predicate SameAt(a: map<int, string>, b: map<int, string>, i: int) {
    (i in a <==> i in b) && (i in a ==> a[i] == b[i])
  }

  lemma CommitSpellsNothing(st: State, s: Step, fetched: Catalog, ch: Channel, i: int)
    ensures Spelled(ch, i, Commit(st, s, fetched).out) == Spelled(ch, i, st.out)
  {
    var events := CommitEffect(st.core, s, fetched).events;
    CommitPostsNoDelta(st.core, s, fetched);
    SpellsNothing(ch, i, events);
    SpelledConcat(ch, i, st.out, events);
  }

  lemma SpelledSnoc(ch: Channel, i: int, events: seq<Event>, e: Event)
    ensures Spelled(ch, i, events + [e]) == Spelled(ch, i, events) + DeltaOf(ch, i, e)
    ensures DeltaOf(ch, i, e) == "" ==> Spelled(ch, i, events + [e]) == Spelled(ch, i, events)
  {
    assert (events + [e])[..|events|] == events;
  }

  /** The snapshot spells its growth past what was forwarded and replaces it; without one nothing changes. */
  predicate Tracks(st: State, st': State, ch: Channel, i: int, snapshot: Option<string>) {
    match snapshot
    case Some(text) =>
      && Spelled(ch, i, st'.out) == Spelled(ch, i, st.out) + Extension(PrefixAt(Forwarded(st, ch), i), text)
      && i in Forwarded(st', ch) && Forwarded(st', ch)[i] == text
    case None =>
      Spelled(ch, i, st'.out) == Spelled(ch, i, st.out) && SameAt(Forwarded(st', ch), Forwarded(st, ch), i)
  }

  lemma ReasoningTracks(st: State, x: Sighting, ch: Channel, i: int)
    requires x.path.Streamed? && InProgress(x.step)
    ensures Tracks(st, ReasoningStep(st, x.step), ch, i, if ch.Thinking? then Snapshot(Thinking, i, x) else None)
  {
    var out := ReasoningStep(st, x.step).out;
    if out != st.out {
      SpelledSnoc(ch, i, st.out, out[|out| - 1]);
    }
  }

  lemma TextTracks(st: State, x: Sighting, ch: Channel, i: int)
    requires x.path.Streamed? && InProgress(x.step)
    ensures Tracks(st, TextStep(st, x.step), ch, i, if ch.Text? then Snapshot(Text, i, x) else None)
  {
    var out := TextStep(st, x.step).out;
    if out != st.out {
      SpelledSnoc(ch, i, st.out, out[|out| - 1]);
    }
  }

  lemma TracksChain(st: State, st1: State, st2: State, ch: Channel, i: int, thinking: Option<string>, text: Option<string>)
    requires Tracks(st, st1, ch, i, if ch.Thinking? then thinking else None)
    requires Tracks(st1, st2, ch, i, if ch.Text? then text else None)
    ensures Tracks(st, st2, ch, i, if ch.Thinking? then thinking else text)
  {
  }

  lemma SeeTracks(st: State, x: Sighting, fetched: Catalog, ch: Channel, i: int)
    requires !Resets(x, i)
    ensures Tracks(st, See(st, x, fetched), ch, i, Snapshot(ch, i, x))
  {
    if x.path.Streamed? && InProgress(x.step) {
      var st1 := ReasoningStep(st, x.step);
      ReasoningTracks(st, x, ch, i);
      TextTracks(st1, x, ch, i);
      TracksChain(st, st1, TextStep(st1, x.step), ch, i, Snapshot(Thinking, i, x), Snapshot(Text, i, x));
    } else {
      CommitSpellsNothing(st, x.step, fetched, ch, i);
    }
  }

  /** A commit on the stream posts no delta and forgets what was forwarded for its index. */
  lemma CommitResets(st: State, x: Sighting, fetched: Catalog, ch: Channel, i: int)
    requires Resets(x, i)
    ensures i !in Forwarded(See(st, x, fetched), ch)
    ensures Spelled(ch, i, See(st, x, fetched).out) == Spelled(ch, i, st.out)
  {
    CommitSpellsNothing(st, x.step, fetched, ch, i);
  }

  // ----- a stretch without a commit of the index -----

  ghost predicate NoReset(xs: seq<Sighting>, i: int) {
    forall x | x in xs :: !Resets(x, i)
  }

  /** Having spelled `total` in all and forwarded `latest`, after taking in the snapshots from `start`. */
  predicate TakenIn(before: string, start: string, snapshots: seq<string>, total: string, latest: string) {
    total == before + Emitted(start, snapshots) && latest == Latest(start, snapshots)
  }

  lemma TakenInSnoc(before: string, start: string, snapshots: seq<string>, total: string, latest: string, text: string)
    requires TakenIn(before, start, snapshots, total, latest)
    ensures TakenIn(before, start, snapshots + [text], total + Extension(latest, text), text)
  {
    EmittedSnoc(start, snapshots, text);
    Assoc(before, Emitted(start, snapshots), Extension(latest, text));
  }

  /** From `before`, the tracker of one index has taken in the snapshots and spelled what they emit. */
  predicate Spells(before: State, st: State, ch: Channel, i: int, snapshots: seq<string>) {
    && TakenIn(Spelled(ch, i, before.out), PrefixAt(Forwarded(before, ch), i), snapshots,
               Spelled(ch, i, st.out), PrefixAt(Forwarded(st, ch), i))
    && (i in Forwarded(st, ch) <==> i in Forwarded(before, ch) || snapshots != [])
  }

  lemma SpellsSnoc(before: State, mid: State, st: State, ch: Channel, i: int, snapshots: seq<string>, text: string)
    requires Spells(before, mid, ch, i, snapshots)
    requires Tracks(mid, st, ch, i, Some(text))
    ensures Spells(before, st, ch, i, snapshots + [text])
  {
    assert PrefixAt(Forwarded(st, ch), i) == text;
    assert Spelled(ch, i, st.out) == Spelled(ch, i, mid.out) + Extension(PrefixAt(Forwarded(mid, ch), i), text);
    TakenInSnoc(Spelled(ch, i, before.out), PrefixAt(Forwarded(before, ch), i), snapshots,
                Spelled(ch, i, mid.out), PrefixAt(Forwarded(mid, ch), i), text);
  }

  lemma EmittedSnoc(start: string, snapshots: seq<string>, text: string)
    ensures Emitted(start, snapshots + [text]) == Emitted(start, snapshots) + Extension(Latest(start, snapshots), text)
  {
    assert (snapshots + [text])[..|snapshots|] == snapshots;
  }

  lemma SnapshotsSnoc(ch: Channel, i: int, xs: seq<Sighting>)
    requires xs != []
    ensures Snapshots(ch, i, xs)
            == match Snapshot(ch, i, xs[|xs| - 1])
               case Some(text) => Snapshots(ch, i, xs[..|xs| - 1]) + [text]
               case None => Snapshots(ch, i, xs[..|xs| - 1])
  {
  }

  /** Over any stretch, from any state: exactly the growth of each snapshot past the one before. */
  lemma {:induction false} StretchSpells(st: State, xs: seq<Sighting>, fetched: Catalog, ch: Channel, i: int)
    requires NoReset(xs, i)
    ensures Spells(st, SeeAll(st, xs, fetched), ch, i, Snapshots(ch, i, xs))
  {
    if xs != [] {
      var init, x := xs[..|xs| - 1], xs[|xs| - 1];
      assert x in xs;
      StretchSpells(st, init, fetched, ch, i);
      var mid := SeeAll(st, init, fetched);
      SeeTracks(mid, x, fetched, ch, i);
      SnapshotsSnoc(ch, i, xs);
      if Snapshot(ch, i, x).Some? {
        SpellsSnoc(st, mid, See(mid, x, fetched), ch, i, Snapshots(ch, i, init), Snapshot(ch, i, x).value);
      }
    }
  }

  /** Each snapshot extends the one before, the first what had been forwarded. */
  ghost predicate Growing(start: string, snapshots: seq<string>) {
    forall n | 0 < n <= |snapshots| :: Latest(start, snapshots[..n - 1]) <= Latest(start, snapshots[..n])
  }

  /** What was forwarded and what was emitted since together spell the latest snapshot, after every snapshot. */
  ghost predicate AlwaysSpelled(start: string, snapshots: seq<string>) {
    forall n | 0 <= n <= |snapshots| :: start + Emitted(start, snapshots[..n]) == Latest(start, snapshots[..n])
  }

  lemma EmittedAt(start: string, snapshots: seq<string>, n: nat)
    requires 0 < n <= |snapshots|
    ensures start + Emitted(start, snapshots[..n])
            == (start + Emitted(start, snapshots[..n - 1]))
               + Extension(Latest(start, snapshots[..n - 1]), Latest(start, snapshots[..n]))
  {
    assert snapshots[..n][..n - 1] == snapshots[..n - 1];
  }

  lemma GrowthCompletes(before: string, now: string)
    ensures before + Extension(before, now) == now <==> before <= now
  {
    if before <= now && |before| == |now| {
      assert before == now;
    }
  }

  /** Deltas keep up with the snapshots exactly over growing stretches. */
  lemma SpelledExactlyWhenGrowing(start: string, snapshots: seq<string>)
    ensures AlwaysSpelled(start, snapshots) <==> Growing(start, snapshots)
  {
    if Growing(start, snapshots) {
      forall n | 0 <= n <= |snapshots|
        ensures start + Emitted(start, snapshots[..n]) == Latest(start, snapshots[..n])
      {
        GrowingSpells(start, snapshots, n);
      }
    }
    if AlwaysSpelled(start, snapshots) {
      forall n | 0 < n <= |snapshots|
        ensures Latest(start, snapshots[..n - 1]) <= Latest(start, snapshots[..n])
      {
        EmittedAt(start, snapshots, n);
        GrowthCompletes(Latest(start, snapshots[..n - 1]), Latest(start, snapshots[..n]));
      }
    }
  }

  lemma {:induction false} GrowingSpells(start: string, snapshots: seq<string>, n: nat)
    requires n <= |snapshots| && Growing(start, snapshots)
    ensures start + Emitted(start, snapshots[..n]) == Latest(start, snapshots[..n])
  {
    if n > 0 {
      GrowingSpells(start, snapshots, n - 1);
      EmittedAt(start, snapshots, n);
      GrowthCompletes(Latest(start, snapshots[..n - 1]), Latest(start, snapshots[..n]));
    }
  }

  /**
   Over any growing stretch, what had been forwarded at its start followed by
   the deltas it adds is the latest snapshot, whatever is interleaved.
   */
  lemma GrowingStretch(st: State, xs: seq<Sighting>, fetched: Catalog, ch: Channel, i: int)
    requires NoReset(xs, i)
    requires Growing(PrefixAt(Forwarded(st, ch), i), Snapshots(ch, i, xs))
    ensures var start, snapshots := PrefixAt(Forwarded(st, ch), i), Snapshots(ch, i, xs);
            exists added: string ::
              && Spelled(ch, i, SeeAll(st, xs, fetched).out) == Spelled(ch, i, st.out) + added
              && start + added == Latest(start, snapshots)
  {
    var start, snapshots := PrefixAt(Forwarded(st, ch), i), Snapshots(ch, i, xs);
    StretchSpells(st, xs, fetched, ch, i);
    GrowingSpells(start, snapshots, |snapshots|);
    assert snapshots[..|snapshots|] == snapshots;
    assert Spelled(ch, i, SeeAll(st, xs, fetched).out) == Spelled(ch, i, st.out) + Emitted(start, snapshots);
  }

  /**
   The committed message replaces the streamed text without a seam: if the
   snapshots of a fresh index grew to the text the planner step is committed
   with, the message posted is exactly what the deltas spelled.
   */
  lemma MessageIsWhatWasSpelled(st: State, xs: seq<Sighting>, s: Step, fetched: Catalog, i: int)
    requires NoReset(xs, i) && i !in st.prefixes && Growing("", Snapshots(Text, i, xs))
    requires s.kind.PlannerResponse? && s.status.Done? && s.index == Some(i) && s.planner.Some?
    requires s.planner.value.modified == Some(Latest("", Snapshots(Text, i, xs))) && s.planner.value.modified != Some("")
    requires StepKey(s) !in SeeAll(st, xs, fetched).seen
    ensures var mid := SeeAll(st, xs, fetched);
            var posted := CommitEffect(mid.core, s, fetched).events;
            && See(mid, Sighting(Streamed, s), fetched).out == mid.out + posted
            && exists added: string ::
                 && Spelled(Text, i, mid.out) == Spelled(Text, i, st.out) + added
                 && AssistantMessage(added, i) in posted
  {
    var mid, snapshots := SeeAll(st, xs, fetched), Snapshots(Text, i, xs);
    var text := Latest("", snapshots);
    StretchSpells(st, xs, fetched, Text, i);
    GrowingSpells("", snapshots, |snapshots|);
    assert snapshots[..|snapshots|] == snapshots;
    assert PrefixAt(Forwarded(st, Text), i) == "";
    assert "" + Emitted("", snapshots) == Emitted("", snapshots);
    assert Spelled(Text, i, mid.out) == Spelled(Text, i, st.out) + text;
    CommitAppends(mid, s, fetched);
    CommitPostsMessage(mid.core, s, fetched);
    assert AssistantMessage(text, i) in CommitEffect(mid.core, s, fetched).events;
  }

  lemma CommitAppends(st: State, s: Step, fetched: Catalog)
    requires !InProgress(s) && StepKey(s) !in st.seen
    ensures See(st, Sighting(Streamed, s), fetched).out == st.out + CommitEffect(st.core, s, fetched).events
  {
  }

  lemma CommitPostsMessage(c: Core, s: Step, fetched: Catalog)
    requires s.kind.PlannerResponse? && s.status.Done? && s.planner.Some?
    requires NonEmpty(s.planner.value.modified).Some?
    ensures AssistantMessage(s.planner.value.modified.value, StepIndexOr0(s)) in CommitEffect(c, s, fetched).events
  {
    MessageMapping(s, c.allocator);
    var telemetry := CommitShape(c, s, fetched);
    assert MapStep(s, c.allocator).events[0] in MapStep(s, c.allocator).events;
  }

  /** A frame of a planner step that is still generating. */
  function Typing(text: string): Sighting {
    var planner := Planner(None, Some(text), None, Null, Null, []);
    Sighting(Streamed, Step(PlannerResponse, Generating, Some("t"), Some(0), None, None, None, Some(planner),
                            None, None, None, None, None, None, None))
  }

  lemma RegrowthIsEmitted()
    ensures Emitted("", ["ab", "a", "ab"]) == "abb"
  {
    var texts := ["ab", "a", "ab"];
    assert texts[..2] == ["ab", "a"] && texts[..2][..1] == ["ab"] && ["ab"][..0] == [];
    assert Emitted("", ["ab"]) == "ab";
    assert Emitted("", ["ab", "a"]) == "ab";
    assert Emitted("", texts) == "ab" + Extension("a", "ab");
  }

  lemma TypingShows(before: seq<Sighting>, text: string)
    ensures Snapshots(Text, 0, before + [Typing(text)]) == Snapshots(Text, 0, before) + [text]
  {
    assert (before + [Typing(text)])[..|before|] == before;
  }

  /** A text that shrinks and grows back is forwarded twice. */
  lemma ShrinkAndRegrowRepeats(cascade: string, fetched: Catalog)
    ensures Spelled(Text, 0, SeeAll(FreshState(cascade), [Typing("ab"), Typing("a"), Typing("ab")], fetched).out) == "abb"
  {
    var frames := [] + [Typing("ab")] + [Typing("a")] + [Typing("ab")];
    TypingShows([], "ab");
    TypingShows([] + [Typing("ab")], "a");
    TypingShows([] + [Typing("ab")] + [Typing("a")], "ab");
    assert Snapshots(Text, 0, frames) == ["ab", "a", "ab"];
    StretchSpells(FreshState(cascade), frames, fetched, Text, 0);
    RegrowthIsEmitted();
    assert frames == [Typing("ab"), Typing("a"), Typing("ab")];
  }

  // ----- no empty delta, and the started marker -----

  predicate NoEmptyDelta(events: seq<Event>) {
    forall e | e in events :: IsDelta(e) ==> e.delta != ""
  }

  lemma {:induction false} DeltasAreNotEmpty(st: State, xs: seq<Sighting>, fetched: Catalog)
    requires NoEmptyDelta(st.out)
    ensures NoEmptyDelta(SeeAll(st, xs, fetched).out)
  {
    if xs != [] {
      DeltasAreNotEmpty(st, xs[..|xs| - 1], fetched);
      SeeKeepsNonEmpty(SeeAll(st, xs[..|xs| - 1], fetched), xs[|xs| - 1], fetched);
    }
  }

  lemma {:induction false} NoDeltaIn(events: seq<Event>)
    requires NonDelta(events) == events
    ensures NoEmptyDelta(events)
  {
    if events != [] {
      NonDeltaShorter(events[..|events| - 1]);
      NoDeltaIn(events[..|events| - 1]);
      assert events == events[..|events| - 1] + [events[|events| - 1]];
    }
  }

  lemma SeeKeepsNonEmpty(st: State, x: Sighting, fetched: Catalog)
    requires NoEmptyDelta(st.out)
    ensures NoEmptyDelta(See(st, x, fetched).out)
  {
    if x.path.Streamed? && InProgress(x.step) {
      assert NoEmptyDelta(ReasoningStep(st, x.step).out);
    } else {
      CommitPostsNoDelta(st.core, x.step, fetched);
      NoDeltaIn(CommitEffect(st.core, x.step, fetched).events);
      assert NoEmptyDelta(Commit(st, x.step, fetched).out);
    }
  }

  /** How often the reasoning of index `i` was marked as started. */
  function Starts(i: int, events: seq<Event>): nat {
    if events == [] then 0
    else
      var e := events[|events| - 1];
      Starts(i, events[..|events| - 1]) + (if e.ReasoningDelta? && e.step == i && e.started then 1 else 0)
  }

  lemma {:induction false} StartsConcat(i: int, a: seq<Event>, b: seq<Event>)
    ensures Starts(i, a + b) == Starts(i, a) + Starts(i, b)
  {
    if b == [] {
      assert a + b == a;
    } else {
      assert (a + b)[..|a + b| - 1] == a + b[..|b| - 1];
      StartsConcat(i, a, b[..|b| - 1]);
    }
  }

  lemma {:induction false} StartsNothing(i: int, events: seq<Event>)
    requires NonDelta(events) == events
    ensures Starts(i, events) == 0
  {
    if events != [] {
      NonDeltaShorter(events[..|events| - 1]);
      StartsNothing(i, events[..|events| - 1]);
    }
  }

  lemma ReasoningStarts(st: State, x: Sighting, i: int)
    requires x.path.Streamed? && InProgress(x.step)
    ensures Starts(i, ReasoningStep(st, x.step).out)
            == Starts(i, st.out)
               + (if i !in st.reasoning && Snapshot(Thinking, i, x).Some? && Snapshot(Thinking, i, x) != Some("") then 1 else 0)
  {
    var out := ReasoningStep(st, x.step).out;
    assert out != st.out ==> out[..|out| - 1] == st.out;
  }

  lemma TextStarts(st: State, s: Step, i: int)
    ensures Starts(i, TextStep(st, s).out) == Starts(i, st.out)
  {
    var out := TextStep(st, s).out;
    assert out != st.out ==> out[..|out| - 1] == st.out;
  }

  /** A sighting marks a start exactly when it is the first thinking snapshot of its index and is not empty. */
  lemma SeeStarts(st: State, x: Sighting, fetched: Catalog, i: int)
    ensures Starts(i, See(st, x, fetched).out)
            == Starts(i, st.out)
               + (if i !in st.reasoning && Snapshot(Thinking, i, x).Some? && Snapshot(Thinking, i, x) != Some("") then 1 else 0)
  {
    if x.path.Streamed? && InProgress(x.step) {
      ReasoningStarts(st, x, i);
      TextStarts(ReasoningStep(st, x.step), x.step, i);
    } else {
      var events := CommitEffect(st.core, x.step, fetched).events;
      CommitPostsNoDelta(st.core, x.step, fetched);
      StartsNothing(i, events);
      StartsConcat(i, st.out, events);
    }
  }

  /**
   Between resets at most one reasoning delta is marked as started, and one is
   exactly when the first thinking snapshot is not empty: an empty one uses the
   marker up.
   */
  lemma {:induction false} StartedExactly(st: State, xs: seq<Sighting>, fetched: Catalog, i: int)
    requires NoReset(xs, i)
    ensures var snapshots := Snapshots(Thinking, i, xs);
            Starts(i, SeeAll(st, xs, fetched).out)
            == Starts(i, st.out) + (if i !in st.reasoning && snapshots != [] && snapshots[0] != "" then 1 else 0)
  {
    if xs != [] {
      var init, x := xs[..|xs| - 1], xs[|xs| - 1];
      assert x in xs;
      StartedExactly(st, init, fetched, i);
      StretchSpells(st, init, fetched, Thinking, i);
      SeeStarts(SeeAll(st, init, fetched), x, fetched, i);
    }
  }
}
