/**
 Hand-over of WAITING steps to the interaction bridge, one at a time, with
 re-scans for deferred gates and withdrawal of gates that stopped waiting
 (omnicraft/antigravity_native_reader.py). Every action below runs between two
 `await`s of the source, so any list of actions is an interleaving of frames,
 bridge completions, late done-callbacks and re-scans.
 */
module InteractionGates {
  import opened Wrappers
  import opened JsonValues
  import opened Sequences
  import opened Steps
  import opened StepKeys
  import opened InteractionBridge

  const RESCAN_POLL_ATTEMPTS := 3

  /** A finished task still has its done-callback to come. */
  datatype Task = Running | Finished(cancelled: bool) | Cleared

  datatype Gates = Gates(
    interacted: set<Key>,
    surfaced: map<Key, ElicitationId>,
    slot: Option<nat>,
    tasks: seq<Task>,
    rescans: nat,
    handed: seq<Key>,
    withdrawn: seq<Key>)

  const NO_GATES := Gates({}, map[], None, [], 0, [], [])

  predicate Active(g: Gates) {
    g.slot.Some? && g.slot.value < |g.tasks| && g.tasks[g.slot.value].Running?
  }

  /** A step that waits and has not been handed over. */
  predicate Undone(g: Gates, s: Step) {
    PendingInteraction(s).Some? && StepKey(s) !in g.interacted
  }

  function Handle(g: Gates, cascade: string, s: Step): Gates {
    if !Undone(g, s) || Active(g) then g
    else
      var p := PendingInteraction(s).value;
      g.(interacted := g.interacted + {StepKey(s)},
         surfaced := g.surfaced[StepKey(s) := ElicitationId(cascade, p.trajectoryId, p.index)],
         slot := Some(|g.tasks|),
         tasks := g.tasks + [Task.Running],
         handed := g.handed + [StepKey(s)])
  }

  function Withdraw(g: Gates, s: Step): Gates {
    if StepKey(s) !in g.surfaced || PendingInteraction(s).Some? then g
    else g.(surfaced := g.surfaced - {StepKey(s)}, withdrawn := g.withdrawn + [StepKey(s)])
  }

  function HandleAll(g: Gates, cascade: string, steps: seq<Step>): Gates {
    if steps == [] then g
    else Handle(HandleAll(g, cascade, steps[..|steps| - 1]), cascade, steps[|steps| - 1])
  }

  /** The first successful read of a re-scan, among the attempts it has. */
  function RescanRead(polls: seq<Option<seq<Step>>>): Option<seq<Step>> {
    if |polls| > 0 && polls[0].Some? then polls[0]
    else if |polls| > 1 && polls[1].Some? then polls[1]
    else if |polls| > 2 then polls[2]
    else None
  }

  datatype Action =
    | Sight(step: Step)
    | Finish(task: nat, cancelled: bool)
    | Callback(task: nat)
    | Rescan(polls: seq<Option<seq<Step>>>)

  predicate Enabled(g: Gates, a: Action) {
    match a
    case Sight(_) => true
    case Finish(t, _) => t < |g.tasks| && g.tasks[t].Running?
    case Callback(t) => t < |g.tasks| && g.tasks[t].Finished?
    case Rescan(_) => g.rescans > 0
  }

  function Act(g: Gates, cascade: string, a: Action): Gates
    requires Enabled(g, a)
  {
    match a
    case Sight(s) => Withdraw(Handle(g, cascade, s), s)
    case Finish(t, cancelled) => g.(tasks := g.tasks[t := Finished(cancelled)])
    case Callback(t) =>
      g.(slot := if g.slot == Some(t) then None else g.slot,
         tasks := g.tasks[t := Cleared],
         rescans := if g.tasks[t].cancelled then g.rescans else g.rescans + 1)
    case Rescan(polls) =>
      var g' := g.(rescans := g.rescans - 1);
      match RescanRead(polls)
      case Some(steps) => HandleAll(g', cascade, steps)
      case None => g'
  }

  function RunActions(g: Gates, cascade: string, actions: seq<Action>): Gates {
    if actions == [] then g
    else
      var before := RunActions(g, cascade, actions[..|actions| - 1]);
      var a := actions[|actions| - 1];
      if Enabled(before, a) then Act(before, cascade, a) else before
  }

  // ----- the object the reader mutates -----

  class GateKeeper {
    const cascade: string
    var interacted: set<Key>
    var surfacedElicitations: map<Key, ElicitationId>
    var interactionTask: Option<nat>
    var tasks: seq<Task>
    var rescans: nat
    /** Bridges started and withdrawals posted so far, in order. */
    var handed: seq<Key>
    var withdrawn: seq<Key>

    ghost function Value(): Gates
      reads this
    {
      Gates(interacted, surfacedElicitations, interactionTask, tasks, rescans, handed, withdrawn)
    }

    constructor (cascade: string)
      ensures this.cascade == cascade && Value() == NO_GATES
    {
      this.cascade := cascade;
      interacted, surfacedElicitations, interactionTask, tasks := {}, map[], None, [];
      rescans, handed, withdrawn := 0, [], [];
    }

    method MaybeHandleInteraction(s: Step, key: Key)
      requires key == StepKey(s)
      modifies this
      ensures Value() == Handle(old(Value()), cascade, s)
    {
      var pending := PendingInteraction(s);
      if pending.None? {
        return;
      }
      if key in interacted {
        return;
      }
      if interactionTask.Some? && interactionTask.value < |tasks| && tasks[interactionTask.value].Running? {
        return;
      }
      interacted := interacted + {key};
      surfacedElicitations :=
        surfacedElicitations[key := ElicitationId(cascade, pending.value.trajectoryId, pending.value.index)];
      interactionTask := Some(|tasks|);
      tasks := tasks + [Task.Running];
      handed := handed + [key];
    }

    method MaybeWithdrawInteraction(s: Step, key: Key)
      requires key == StepKey(s)
      modifies this
      ensures Value() == Withdraw(old(Value()), s)
    {
      if key !in surfacedElicitations {
        return;
      }
      if PendingInteraction(s).Some? {
        return;
      }
      surfacedElicitations := surfacedElicitations - {key};
      withdrawn := withdrawn + [key];
    }

    /** The done-callback of a bridge task. */
    method ClearSlot(completed: nat)
      requires Enabled(Value(), Callback(completed))
      modifies this
      ensures Value() == Act(old(Value()), cascade, Callback(completed))
    {
      if interactionTask == Some(completed) {
        interactionTask := None;
      }
      var cancelled := tasks[completed].cancelled;
      tasks := tasks[completed := Cleared];
      if cancelled {
        return;
      }
      rescans := rescans + 1;
    }

    method ResurfacePendingInteraction(polls: seq<Option<seq<Step>>>)
      requires Enabled(Value(), Rescan(polls)) && |polls| == RESCAN_POLL_ATTEMPTS
      modifies this
      ensures Value() == Act(old(Value()), cascade, Rescan(polls))
    {
      rescans := rescans - 1;
      var steps: Option<seq<Step>> := None;
      var attempt := 0;
      while attempt < RESCAN_POLL_ATTEMPTS
        invariant 0 <= attempt <= RESCAN_POLL_ATTEMPTS
        invariant steps.None? && forall k | 0 <= k < attempt :: polls[k].None?
        invariant Value() == old(Value()).(rescans := old(rescans) - 1)
      {
        if polls[attempt].Some? {
          steps := polls[attempt];
          break;
        }
        attempt := attempt + 1;
      }
      if steps.None? {
        return;
      }
      for i := 0 to |steps.value|
        invariant Value() == HandleAll(old(Value()).(rescans := old(rescans) - 1), cascade, steps.value[..i])
      {
        assert steps.value[..i + 1][..i] == steps.value[..i];
        MaybeHandleInteraction(steps.value[i], StepKey(steps.value[i]));
      }
      assert steps.value[..|steps.value|] == steps.value;
    }
  }

  // ----- what every interleaving keeps -----

  /**
   A running bridge owns the slot, so there is at most one; a key is handed
   over at most once; and a handed-over key is either still surfaced or has
   been withdrawn, once.
   */
  ghost predicate Sound(g: Gates) {
    && (g.slot.Some? ==> g.slot.value < |g.tasks|)
    && (forall t: nat | t < |g.tasks| && g.tasks[t].Running? :: g.slot == Some(t))
    && NoDuplicates(g.handed) && (forall k :: k in g.interacted <==> k in g.handed)
    && NoDuplicates(g.withdrawn)
    && (forall k :: k in g.interacted <==> k in g.surfaced || k in g.withdrawn)
    && (forall k | k in g.withdrawn :: k !in g.surfaced)
  }

  lemma HandleSound(g: Gates, cascade: string, s: Step)
    requires Sound(g)
    ensures Sound(Handle(g, cascade, s))
    ensures g.handed <= Handle(g, cascade, s).handed
    ensures g.withdrawn == Handle(g, cascade, s).withdrawn
  {
    var g' := Handle(g, cascade, s);
    if g' != g {
      assert forall k :: k in g'.handed <==> k in g.handed || k == StepKey(s);
    }
  }

  lemma WithdrawSound(g: Gates, s: Step)
    requires Sound(g)
    ensures Sound(Withdraw(g, s))
  {
    var g' := Withdraw(g, s);
    if g' != g {
      assert forall k :: k in g'.withdrawn <==> k in g.withdrawn || k == StepKey(s);
    }
  }

  lemma {:induction false} HandleAllSound(g: Gates, cascade: string, steps: seq<Step>)
    requires Sound(g)
    ensures Sound(HandleAll(g, cascade, steps))
    ensures g.handed <= HandleAll(g, cascade, steps).handed
    ensures g.withdrawn == HandleAll(g, cascade, steps).withdrawn
  {
    if steps != [] {
      HandleAllSound(g, cascade, steps[..|steps| - 1]);
      HandleSound(HandleAll(g, cascade, steps[..|steps| - 1]), cascade, steps[|steps| - 1]);
    }
  }

  lemma ActSound(g: Gates, cascade: string, a: Action)
    requires Sound(g) && Enabled(g, a)
    ensures Sound(Act(g, cascade, a))
  {
    match a {
      case Sight(s) =>
        HandleSound(g, cascade, s);
        WithdrawSound(Handle(g, cascade, s), s);
      case Finish(_, _) =>
      case Callback(_) =>
      case Rescan(polls) =>
        if RescanRead(polls).Some? {
          HandleAllSound(g.(rescans := g.rescans - 1), cascade, RescanRead(polls).value);
        }
    }
  }

  /** Under any interleaving, from the start of a run. */
  lemma {:induction false} EveryInterleavingSound(cascade: string, actions: seq<Action>)
    ensures Sound(RunActions(NO_GATES, cascade, actions))
  {
    if actions != [] {
      var before := RunActions(NO_GATES, cascade, actions[..|actions| - 1]);
      EveryInterleavingSound(cascade, actions[..|actions| - 1]);
      if Enabled(before, actions[|actions| - 1]) {
        ActSound(before, cascade, actions[|actions| - 1]);
      }
    }
  }

  /** At most one bridge is unfinished at any time. */
  lemma OneBridgeAtATime(cascade: string, actions: seq<Action>, t: nat, u: nat)
    requires var g := RunActions(NO_GATES, cascade, actions);
             t < |g.tasks| && u < |g.tasks| && g.tasks[t].Running? && g.tasks[u].Running?
    ensures t == u
  {
    EveryInterleavingSound(cascade, actions);
  }

  /** A withdrawal is posted only for a handed-over key, on seeing its step no longer pending. */
  lemma WithdrawnOnlyWhenSeenDone(g: Gates, cascade: string, a: Action, k: Key)
    requires Sound(g) && Enabled(g, a)
    requires k in Act(g, cascade, a).withdrawn && k !in g.withdrawn
    ensures a.Sight? && StepKey(a.step) == k && PendingInteraction(a.step).None?
    ensures k in g.interacted && k !in Act(g, cascade, a).surfaced
  {
    match a {
      case Sight(s) => HandleSound(g, cascade, s);
      case Finish(_, _) =>
      case Callback(_) =>
      case Rescan(polls) =>
        if RescanRead(polls).Some? {
          HandleAllSound(g.(rescans := g.rescans - 1), cascade, RescanRead(polls).value);
        }
    }
  }

  // ----- which steps are handed over, by their fields -----

  /** agy waits for an answer: the status says so, whatever block the step carries, and the block says what to ask. */
  predicate Awaits(s: Step, kind: InteractionKind, trajectory: string, spec: Json) {
    && s.status.Waiting?
    && s.trajectoryId == Some(trajectory)
    && s.request == Some(match kind case Question => AskRequest(spec) case Permission => PermissionRequest(spec))
  }

  lemma PendingExactly(s: Step, p: Pending)
    ensures PendingInteraction(s) == Some(p)
            <==> Awaits(s, p.kind, p.trajectoryId, p.spec) && p.index == s.index.GetOr(0)
  {
  }

  lemma NoneAwaited(s: Step)
    ensures PendingInteraction(s).None? <==> forall kind, trajectory, spec :: !Awaits(s, kind, trajectory, spec)
  {
    if PendingInteraction(s).Some? {
      PendingExactly(s, PendingInteraction(s).value);
    }
    forall kind, trajectory, spec | Awaits(s, kind, trajectory, spec) ensures PendingInteraction(s).Some? {
      PendingExactly(s, Pending(kind, trajectory, s.index.GetOr(0), spec));
    }
  }

  /** A step that is not WAITING is not handed over, request or not, and what was surfaced of it is withdrawn. */
  lemma AnsweredIsNotHandedOver(g: Gates, cascade: string, s: Step)
    requires !s.status.Waiting?
    ensures var g' := Act(g, cascade, Sight(s));
            && g'.handed == g.handed && g'.tasks == g.tasks && g'.interacted == g.interacted
            && StepKey(s) !in g'.surfaced
            && g'.withdrawn == if StepKey(s) in g.surfaced then g.withdrawn + [StepKey(s)] else g.withdrawn
  {
  }

  /**
   A sighting hands a gate over exactly when agy waits, the key was not handed
   over before and no bridge is running: that key, under the id of its place,
   to a bridge that starts with the kind and the block of the request.
   */
  lemma HandedOverExactly(g: Gates, cascade: string, s: Step)
    requires Sound(g)
    ensures var g' := Act(g, cascade, Sight(s));
            if (forall t | t in g.tasks :: !t.Running?) && StepKey(s) !in g.handed
               && exists kind, trajectory, spec :: Awaits(s, kind, trajectory, spec)
            then
              && g'.handed == g.handed + [StepKey(s)] && g'.tasks == g.tasks + [Task.Running]
              && exists kind, trajectory, spec ::
                   && Awaits(s, kind, trajectory, spec)
                   && PendingInteraction(s) == Some(Pending(kind, trajectory, s.index.GetOr(0), spec))
                   && g'.surfaced == g.surfaced[StepKey(s) := ElicitationId(cascade, trajectory, s.index.GetOr(0))]
            else g'.handed == g.handed && g'.tasks == g.tasks
  {
    NoneAwaited(s);
    BusyExactly(g);
    if PendingInteraction(s).Some? {
      var p := PendingInteraction(s).value;
      PendingExactly(s, p);
      assert Awaits(s, p.kind, p.trajectoryId, p.spec);
    }
  }

  lemma BusyExactly(g: Gates)
    requires Sound(g)
    ensures Active(g) <==> exists t :: t in g.tasks && t.Running?
  {
    if t :| t in g.tasks && t.Running? {
      var i :| 0 <= i < |g.tasks| && g.tasks[i] == t;
      assert g.slot == Some(i);
    }
  }

  /** A sweep of a read hands over only steps that agy waits at. */
  lemma {:induction false} SweepHandsOnlyWaiting(g: Gates, cascade: string, steps: seq<Step>, k: Key)
    requires k in HandleAll(g, cascade, steps).handed && k !in g.handed
    ensures exists s, kind, trajectory, spec :: s in steps && StepKey(s) == k && Awaits(s, kind, trajectory, spec)
  {
    var init, last := steps[..|steps| - 1], steps[|steps| - 1];
    var before := HandleAll(g, cascade, init);
    if k in before.handed {
      SweepHandsOnlyWaiting(g, cascade, init, k);
      var s, kind, trajectory, spec :| s in init && StepKey(s) == k && Awaits(s, kind, trajectory, spec);
      assert s in steps;
    } else {
      var p := PendingInteraction(last).value;
      PendingExactly(last, p);
      assert last in steps && Awaits(last, p.kind, p.trajectoryId, p.spec);
    }
  }

  // ----- deferred gates drain -----

  function UndoneKeys(g: Gates, steps: seq<Step>): set<Key> {
    set s | s in steps && Undone(g, s) :: StepKey(s)
  }

  lemma {:induction false} ActiveHandlesNothing(g: Gates, cascade: string, steps: seq<Step>)
    requires Active(g)
    ensures HandleAll(g, cascade, steps) == g
  {
    if steps != [] {
      ActiveHandlesNothing(g, cascade, steps[..|steps| - 1]);
    }
  }

  /** Where the first undone step is. */
  function FirstUndone(g: Gates, steps: seq<Step>): (first: Option<nat>)
    ensures first.None? ==> forall j | 0 <= j < |steps| :: !Undone(g, steps[j])
    ensures first.Some? ==> first.value < |steps| && Undone(g, steps[first.value])
                            && forall j | 0 <= j < first.value :: !Undone(g, steps[j])
  {
    if steps == [] then None
    else
      var init := steps[..|steps| - 1];
      var before := FirstUndone(g, init);
      assert forall j | 0 <= j < |init| :: steps[j] == init[j];
      if before.Some? then before else if Undone(g, steps[|init|]) then Some(|init|) else None
  }

  /** A sweep with the slot free hands over exactly the first undone step, if there is one. */
  lemma {:induction false} SweepHandsOne(g: Gates, cascade: string, steps: seq<Step>)
    requires !Active(g)
    ensures HandleAll(g, cascade, steps)
            == match FirstUndone(g, steps)
               case None => g
               case Some(i) => Handle(g, cascade, steps[i])
    ensures FirstUndone(g, steps).None? <==> UndoneKeys(g, steps) == {}
  {
    NoneUndone(g, steps);
    if steps != [] {
      SweepHandsOne(g, cascade, steps[..|steps| - 1]);
    }
  }

  lemma NoneUndone(g: Gates, steps: seq<Step>)
    ensures UndoneKeys(g, steps) == {} <==> forall j | 0 <= j < |steps| :: !Undone(g, steps[j])
  {
    if j :| 0 <= j < |steps| && Undone(g, steps[j]) {
      assert StepKey(steps[j]) in UndoneKeys(g, steps);
    }
  }

  /** One bridge completion, its callback, and a re-scan that polls the snapshot. */
  function Round(g: Gates, cascade: string, steps: seq<Step>): Gates
    requires Active(g)
  {
    var t := g.slot.value;
    var g1 := Act(g, cascade, Finish(t, false));
    var g2 := Act(g1, cascade, Callback(t));
    Act(g2, cascade, Rescan([Some(steps)]))
  }

  /** When the re-scan sweeps, the slot is free and everything else is as it was. */
  lemma RoundSweeps(g: Gates, cascade: string, steps: seq<Step>) returns (swept: Gates)
    requires Active(g) && Sound(g)
    ensures Sound(swept) && !Active(swept)
    ensures swept.interacted == g.interacted && swept.handed == g.handed && swept.surfaced == g.surfaced
    ensures Round(g, cascade, steps) == HandleAll(swept, cascade, steps)
  {
    var t := g.slot.value;
    var g1 := Act(g, cascade, Finish(t, false));
    var g2 := Act(g1, cascade, Callback(t));
    ActSound(g, cascade, Finish(t, false));
    ActSound(g1, cascade, Callback(t));
    swept := g2.(rescans := g2.rescans - 1);
  }

  /** Each round hands over exactly one more deferred gate of a stable snapshot. */
  lemma RoundHandsOne(g: Gates, cascade: string, steps: seq<Step>)
    requires Active(g) && Sound(g)
    ensures Sound(Round(g, cascade, steps))
    ensures |UndoneKeys(Round(g, cascade, steps), steps)|
            == (if UndoneKeys(g, steps) == {} then 0 else |UndoneKeys(g, steps)| - 1)
    ensures UndoneKeys(g, steps) == {} ==> Round(g, cascade, steps).handed == g.handed
    ensures UndoneKeys(g, steps) != {} ==>
              && Active(Round(g, cascade, steps))
              && exists k :: k in UndoneKeys(g, steps) && Round(g, cascade, steps).handed == g.handed + [k]
  {
    var swept := RoundSweeps(g, cascade, steps);
    HandleAllSound(swept, cascade, steps);
    assert UndoneKeys(swept, steps) == UndoneKeys(g, steps);
    SweepDrains(swept, cascade, steps);
  }

  /** What a sweep with the slot free does to the gates still undone. */
  lemma SweepDrains(g: Gates, cascade: string, steps: seq<Step>)
    requires !Active(g)
    ensures var g' := HandleAll(g, cascade, steps);
            if UndoneKeys(g, steps) == {} then g' == g
            else
              && Active(g') && |UndoneKeys(g', steps)| == |UndoneKeys(g, steps)| - 1
              && exists k :: k in UndoneKeys(g, steps) && g'.handed == g.handed + [k]
  {
    SweepHandsOne(g, cascade, steps);
    if UndoneKeys(g, steps) != {} {
      HandlesThat(g, cascade, steps, FirstUndone(g, steps).value);
    }
  }

  lemma HandlesThat(g: Gates, cascade: string, steps: seq<Step>, i: nat)
    requires i < |steps| && Undone(g, steps[i]) && !Active(g)
    ensures var g' := Handle(g, cascade, steps[i]);
            && Active(g') && g'.handed == g.handed + [StepKey(steps[i])]
            && StepKey(steps[i]) in UndoneKeys(g, steps)
            && UndoneKeys(g', steps) == UndoneKeys(g, steps) - {StepKey(steps[i])}
  {
    assert StepKey(steps[i]) in UndoneKeys(g, steps);
  }

  function Rounds(g: Gates, cascade: string, steps: seq<Step>, n: nat): Gates
    decreases n
  {
    if n == 0 || !Active(g) then g else Rounds(Round(g, cascade, steps), cascade, steps, n - 1)
  }

  /** With k gates of a stable snapshot deferred behind a running bridge, k rounds hand over all of them. */
  lemma {:induction false} DeferredGatesDrain(g: Gates, cascade: string, steps: seq<Step>)
    requires Active(g) && Sound(g)
    ensures UndoneKeys(Rounds(g, cascade, steps, |UndoneKeys(g, steps)|), steps) == {}
    ensures |Rounds(g, cascade, steps, |UndoneKeys(g, steps)|).handed| == |g.handed| + |UndoneKeys(g, steps)|
    decreases |UndoneKeys(g, steps)|
  {
    if UndoneKeys(g, steps) != {} {
      RoundHandsOne(g, cascade, steps);
      DeferredGatesDrain(Round(g, cascade, steps), cascade, steps);
    }
  }

  // ----- gates that the bridge has retried -----

  /** The id under which a step of that key is elicited. */
  function IdOf(cascade: string, k: Key): ElicitationId {
    ElicitationId(cascade, k.trajectory.GetOr(""), k.index.GetOr(0))
  }

  /** Which gate a round hands over, and under which id. */
  lemma RoundHands(g: Gates, cascade: string, steps: seq<Step>) returns (k: Key)
    requires Active(g) && Sound(g) && UndoneKeys(g, steps) != {}
    ensures var g' := Round(g, cascade, steps);
            && k in UndoneKeys(g, steps) && g'.handed == g.handed + [k]
            && UndoneKeys(g', steps) == UndoneKeys(g, steps) - {k}
            && g'.surfaced == g.surfaced[k := IdOf(cascade, k)]
    ensures FirstUndone(g, steps).Some? && k == StepKey(steps[FirstUndone(g, steps).value])
  {
    var swept := RoundSweeps(g, cascade, steps);
    assert UndoneKeys(swept, steps) == UndoneKeys(g, steps);
    SameFirstUndone(swept, g, steps);
    SweepHandsOne(swept, cascade, steps);
    var i := FirstUndone(swept, steps).value;
    HandlesThat(swept, cascade, steps, i);
    k := StepKey(steps[i]);
  }

  lemma {:induction false} SameFirstUndone(g: Gates, h: Gates, steps: seq<Step>)
    requires g.interacted == h.interacted
    ensures FirstUndone(g, steps) == FirstUndone(h, steps)
  {
    if steps != [] {
      SameFirstUndone(g, h, steps[..|steps| - 1]);
    }
  }

  /** `g'` has handed over exactly `keys` since `g`, each under the id of its key. */
  ghost predicate HandedSince(g: Gates, g': Gates, cascade: string, keys: set<Key>) {
    && g.handed <= g'.handed
    && (forall k :: k in g'.handed[|g.handed|..] <==> k in keys)
    && (forall k | k in keys :: k in g'.surfaced && g'.surfaced[k] == IdOf(cascade, k))
    && (forall k | k in g.surfaced :: k in g'.surfaced && g'.surfaced[k] == g.surfaced[k])
  }

  lemma HandedAfter(g: Gates, g1: Gates, g': Gates, cascade: string, k: Key, keys: set<Key>)
    requires g1.handed == g.handed + [k] && k !in g.surfaced && g1.surfaced == g.surfaced[k := IdOf(cascade, k)]
    requires HandedSince(g1, g', cascade, keys)
    ensures HandedSince(g, g', cascade, {k} + keys)
  {
    assert g'.handed[|g.handed|] == k;
    assert g'.handed[|g.handed|..] == [k] + g'.handed[|g1.handed|..];
  }

  lemma FirstRound(g: Gates, cascade: string, steps: seq<Step>) returns (k: Key, g1: Gates)
    requires Active(g) && Sound(g) && UndoneKeys(g, steps) != {}
    ensures Active(g1) && Sound(g1)
    ensures k in UndoneKeys(g, steps) && UndoneKeys(g1, steps) == UndoneKeys(g, steps) - {k}
    ensures g1.handed == g.handed + [k] && k !in g.surfaced && g1.surfaced == g.surfaced[k := IdOf(cascade, k)]
    ensures Rounds(g, cascade, steps, |UndoneKeys(g, steps)|) == Rounds(g1, cascade, steps, |UndoneKeys(g1, steps)|)
  {
    k := RoundHands(g, cascade, steps);
    g1 := Round(g, cascade, steps);
    RoundHandsOne(g, cascade, steps);
    var s :| s in steps && Undone(g, s) && StepKey(s) == k;
  }

  /** The rounds hand over exactly the gates that were undone, each under its own id. */
  lemma {:induction false} RoundsHand(g: Gates, cascade: string, steps: seq<Step>)
    requires Active(g) && Sound(g)
    ensures HandedSince(g, Rounds(g, cascade, steps, |UndoneKeys(g, steps)|), cascade, UndoneKeys(g, steps))
    decreases |UndoneKeys(g, steps)|
  {
    var keys := UndoneKeys(g, steps);
    if keys == {} {
      assert Rounds(g, cascade, steps, 0) == g && g.handed[|g.handed|..] == [];
    } else {
      var k, g1 := FirstRound(g, cascade, steps);
      assert {k} + (keys - {k}) == keys && k !in keys - {k};
      RoundsHand(g1, cascade, steps);
      HandedAfter(g, g1, Rounds(g, cascade, steps, |keys|), cascade, k, keys - {k});
    }
  }

  /** The step waits at the place the round surfaced. */
  predicate WaitsWhere(s: Step, p: Pending) {
    var q := PendingInteraction(s);
    q.Some? && q.value.trajectoryId == p.trajectoryId && q.value.index == p.index
  }

  ghost predicate RequestedSince(g: Gates, g': Gates, id: ElicitationId) {
    g.handed <= g'.handed && exists k :: k in g'.handed[|g.handed|..] && k in g'.surfaced && g'.surfaced[k] == id
  }

  lemma RequestedExactly(g: Gates, g': Gates, cascade: string, keys: set<Key>, id: ElicitationId)
    requires HandedSince(g, g', cascade, keys)
    ensures RequestedSince(g, g', id) <==> exists k :: k in keys && IdOf(cascade, k) == id
  {
  }

  lemma UndoneUnder(g: Gates, cascade: string, steps: seq<Step>, p: Pending)
    requires Sound(g)
    ensures (exists k :: k in UndoneKeys(g, steps) && IdOf(cascade, k) == ElicitationId(cascade, p.trajectoryId, p.index))
            <==> exists s :: s in steps && WaitsWhere(s, p) && StepKey(s) !in g.handed
  {
    if k :| k in UndoneKeys(g, steps) && IdOf(cascade, k) == ElicitationId(cascade, p.trajectoryId, p.index) {
      var s :| s in steps && Undone(g, s) && StepKey(s) == k;
      assert WaitsWhere(s, p);
    }
    if s :| s in steps && WaitsWhere(s, p) && StepKey(s) !in g.handed {
      assert Undone(g, s) && StepKey(s) in UndoneKeys(g, steps);
    }
  }

  /**
   The bridge's retries are not recorded as handed over. So the re-scans after
   a bridge hand the gate of one of its rounds over again, under the id that
   round requested, exactly when the snapshot shows a step waiting at that
   place whose key was never handed over.
   */
  lemma RetriedGateIsHandedOverAgainExactly<V>(g: Gates, cascade: string, steps: seq<Step>, env: Environment<V>,
                                               pending: Pending, maxRetries: int,
                                               rounds: seq<InteractionBridge.Round<V>>, i: nat)
    requires Active(g) && Sound(g)
    requires IsRun(env, cascade, pending, maxRetries, rounds) && i < |rounds|
    ensures RequestedSince(g, Rounds(g, cascade, steps, |UndoneKeys(g, steps)|), rounds[i].id)
            <==> exists s :: s in steps && WaitsWhere(s, rounds[i].surfaced) && StepKey(s) !in g.handed
  {
    assert RoundOk(env, cascade, i, rounds[i]);
    RoundsHand(g, cascade, steps);
    RequestedExactly(g, Rounds(g, cascade, steps, |UndoneKeys(g, steps)|), cascade, UndoneKeys(g, steps), rounds[i].id);
    UndoneUnder(g, cascade, steps, rounds[i].surfaced);
  }

  // ----- re-scans -----

  /** How often a bridge ended without being cancelled, as far as the callbacks have come. */
  function Endings(cascade: string, actions: seq<Action>): nat {
    if actions == [] then 0
    else
      var g, a := RunActions(NO_GATES, cascade, actions[..|actions| - 1]), actions[|actions| - 1];
      Endings(cascade, actions[..|actions| - 1])
      + (if a.Callback? && Enabled(g, a) && g.tasks[a.task] == Finished(false) then 1 else 0)
  }

  /** How often a re-scan ran. */
  function Sweeps(cascade: string, actions: seq<Action>): nat {
    if actions == [] then 0
    else
      Sweeps(cascade, actions[..|actions| - 1])
      + (if actions[|actions| - 1].Rescan?
            && Enabled(RunActions(NO_GATES, cascade, actions[..|actions| - 1]), actions[|actions| - 1]) then 1 else 0)
  }

  lemma {:induction false} SweepKeepsRescans(g: Gates, cascade: string, steps: seq<Step>)
    ensures HandleAll(g, cascade, steps).rescans == g.rescans
  {
    if steps != [] {
      SweepKeepsRescans(g, cascade, steps[..|steps| - 1]);
    }
  }

  /** Every bridge that ends without being cancelled brings one re-scan. */
  lemma {:induction false} OneRescanPerEnding(cascade: string, actions: seq<Action>)
    ensures RunActions(NO_GATES, cascade, actions).rescans + Sweeps(cascade, actions) == Endings(cascade, actions)
  {
    if actions != [] {
      var g, a := RunActions(NO_GATES, cascade, actions[..|actions| - 1]), actions[|actions| - 1];
      OneRescanPerEnding(cascade, actions[..|actions| - 1]);
      if a.Rescan? && Enabled(g, a) && RescanRead(a.polls).Some? {
        SweepKeepsRescans(g.(rescans := g.rescans - 1), cascade, RescanRead(a.polls).value);
      }
    }
  }

  /** A re-scan sweeps the first of its three reads that succeeds, and nothing when none does. */
  lemma RescanReadsFirst(polls: seq<Option<seq<Step>>>)
    ensures match RescanRead(polls)
            case Some(steps) =>
              exists k :: 0 <= k < |polls| && k < 3 && polls[k] == Some(steps)
                          && forall j | 0 <= j < k :: polls[j].None?
            case None => forall k | 0 <= k < |polls| && k < 3 :: polls[k].None?
  {
  }

  // ----- no deferred gate is forgotten -----

  /** Something is under way that will end in a re-scan. */
  ghost predicate Busy(g: Gates) {
    || g.rescans > 0
    || exists t: nat :: t < |g.tasks| && (g.tasks[t].Running? || g.tasks[t] == Finished(false))
  }

  /** The read shows the key's step as no longer waiting. */
  predicate ShownDone(steps: seq<Step>, k: Key) {
    exists s | s in steps :: StepKey(s) == k && PendingInteraction(s).None?
  }

  predicate Shown(steps: seq<Step>, k: Key) {
    exists s | s in steps :: StepKey(s) == k
  }

  /**
   The gates seen waiting and passed over, until they are handed over or shown
   as no longer waiting; a read that does not show one of them is stale.
   */
  datatype Watch = Watch(gates: Gates, deferred: set<Key>, abandoned: bool)

  function WatchAct(w: Watch, cascade: string, a: Action): Watch
    requires Enabled(w.gates, a)
  {
    var g' := Act(w.gates, cascade, a);
    match a
    case Sight(s) =>
      Watch(g', if Undone(g', s) then w.deferred + {StepKey(s)} else w.deferred - {StepKey(s)}, w.abandoned)
    case Finish(_, cancelled) => Watch(g', w.deferred, w.abandoned || cancelled)
    case Callback(_) => Watch(g', w.deferred, w.abandoned)
    case Rescan(polls) =>
      match RescanRead(polls)
      case None => Watch(g', w.deferred, true)
      case Some(steps) =>
        var still := set k | k in w.deferred && k !in g'.interacted && !ShownDone(steps, k);
        var isStale := exists k | k in still :: !Shown(steps, k);
        Watch(g', still + UndoneKeys(g', steps), w.abandoned || isStale)
  }

  function RunWatch(cascade: string, actions: seq<Action>): Watch {
    if actions == [] then Watch(NO_GATES, {}, false)
    else
      var before := RunWatch(cascade, actions[..|actions| - 1]);
      var a := actions[|actions| - 1];
      if Enabled(before.gates, a) then WatchAct(before, cascade, a) else before
  }

  /**
   Under any interleaving in which no bridge is cancelled, no re-scan gives up
   and every re-scan's read is recent enough to show the gates still deferred,
   a deferred gate always has a running bridge, a pending callback or a re-scan
   ahead of it.
   */
  lemma {:induction false} NoDeferredGateForgotten(cascade: string, actions: seq<Action>)
    ensures RunWatch(cascade, actions).gates == RunActions(NO_GATES, cascade, actions)
    ensures var w := RunWatch(cascade, actions);
            w.deferred != {} && !w.abandoned ==> Busy(w.gates)
    ensures var w := RunWatch(cascade, actions);
            !w.abandoned ==> forall t: nat | t < |w.gates.tasks| :: w.gates.tasks[t] != Finished(true)
  {
    if actions != [] {
      NoDeferredGateForgotten(cascade, actions[..|actions| - 1]);
      EveryInterleavingSound(cascade, actions[..|actions| - 1]);
      var before := RunWatch(cascade, actions[..|actions| - 1]);
      var a := actions[|actions| - 1];
      if Enabled(before.gates, a) {
        WatchStep(before, cascade, a);
      }
    }
  }

  lemma WatchStep(w: Watch, cascade: string, a: Action)
    requires Sound(w.gates) && Enabled(w.gates, a)
    requires w.deferred != {} && !w.abandoned ==> Busy(w.gates)
    requires !w.abandoned ==> forall t: nat | t < |w.gates.tasks| :: w.gates.tasks[t] != Finished(true)
    ensures var w' := WatchAct(w, cascade, a);
            && (w'.deferred != {} && !w'.abandoned ==> Busy(w'.gates))
            && (!w'.abandoned ==> forall t: nat | t < |w'.gates.tasks| :: w'.gates.tasks[t] != Finished(true))
  {
    var g, g' := w.gates, Act(w.gates, cascade, a);
    match a {
      case Sight(s) =>
        if Active(g) {
          assert g'.tasks == g.tasks && g'.slot == g.slot;
        } else if g'.tasks != g.tasks {
          assert g'.tasks[|g.tasks|].Running?;
        }
        if Busy(g) && g.rescans == 0 {
          var t: nat :| t < |g.tasks| && (g.tasks[t].Running? || g.tasks[t] == Finished(false));
          assert g'.tasks[t] == g.tasks[t];
        }
      case Finish(t, cancelled) =>
        if !cancelled {
          assert g'.tasks[t] == Finished(false);
        }
      case Callback(t) =>
      case Rescan(polls) =>
        if RescanRead(polls).Some? {
          var steps := RescanRead(polls).value;
          RescanKeepsBusy(g.(rescans := g.rescans - 1), cascade, steps);
          StillDeferredIsUndone(w.deferred, steps, g');
        }
    }
  }

  /** A deferred gate that a read shows, and that was not handed over, is undone. */
  lemma StillDeferredIsUndone(deferred: set<Key>, steps: seq<Step>, g': Gates)
    ensures forall k | k in deferred && k !in g'.interacted && !ShownDone(steps, k) && Shown(steps, k) ::
              k in UndoneKeys(g', steps)
  {
    forall k | k in deferred && k !in g'.interacted && !ShownDone(steps, k) && Shown(steps, k)
      ensures k in UndoneKeys(g', steps)
    {
      var s :| s in steps && StepKey(s) == k;
      assert Undone(g', s);
    }
  }

  lemma RescanKeepsBusy(g: Gates, cascade: string, steps: seq<Step>)
    requires Sound(g)
    ensures var g' := HandleAll(g, cascade, steps);
            && (UndoneKeys(g', steps) != {} ==> Busy(g'))
            && ((forall t: nat | t < |g.tasks| :: g.tasks[t] != Finished(true)) ==>
                  forall t: nat | t < |g'.tasks| :: g'.tasks[t] != Finished(true))
  {
    if Active(g) {
      ActiveHandlesNothing(g, cascade, steps);
      assert g.tasks[g.slot.value].Running?;
    } else {
      SweepHandsOne(g, cascade, steps);
      if UndoneKeys(g, steps) != {} {
        var i := FirstUndone(g, steps).value;
        assert Handle(g, cascade, steps[i]).tasks[|g.tasks|].Running?;
      }
    }
  }
}
