/**
 The detect, elicit, re-read, deliver, retry loop
 (omnicraft/antigravity_native_interactions.py). The environment answers the
 calls of each round by arbitrary functions of the round's number, so the set
 of WAITING steps may change between any two calls.
 */
module InteractionBridge {
  import opened Wrappers
  import opened JsonValues
  import opened Steps

  datatype DeliveryOutcome = Accepted | NotRegistered | OtherRpcError
  datatype Read = Snapshot(steps: seq<Step>) | ReadRaises

  datatype Environment<!V> = Environment(
    verdict: nat -> Option<V>,
    read: nat -> Read,
    delivery: nat -> DeliveryOutcome,
    reread: nat -> Read)

  /** The deterministic id; the digest is taken to be injective. */
  datatype ElicitationId = ElicitationId(cascade: string, trajectory: string, index: int)

  datatype Payload<V> = Payload(kind: InteractionKind, verdict: V, spec: Json)

  datatype Round<V> = Round(
    surfaced: Pending,
    id: ElicitationId,
    verdict: Option<V>,
    snapshot: Option<seq<Step>>,
    target: Option<Pending>,
    payload: Option<Payload<V>>,
    outcome: Option<DeliveryOutcome>,
    retry: Option<Pending>)

  // ----- which step a delivery goes to -----

  predicate Waits(steps: seq<Step>, i: nat, kind: InteractionKind, after: Option<int>)
    requires i < |steps|
  {
    var p := PendingInteraction(steps[i]);
    p.Some? && p.value.kind == kind && (after.Some? ==> p.value.index > after.value)
  }

  predicate WaitsAt(steps: seq<Step>, i: nat, trajectory: string, index: int)
    requires i < |steps|
  {
    var p := PendingInteraction(steps[i]);
    p.Some? && p.value.trajectoryId == trajectory && p.value.index == index
  }

  /** `r` is the WAITING interaction of that kind with the highest index, the first of them on a tie. */
  ghost predicate IsFreshest(steps: seq<Step>, kind: InteractionKind, after: Option<int>, r: Option<Pending>) {
    match r
    case None => forall i: nat | i < |steps| :: !Waits(steps, i, kind, after)
    case Some(p) =>
      exists k: nat ::
        && k < |steps| && Waits(steps, k, kind, after) && PendingInteraction(steps[k]) == Some(p)
        && (forall i: nat | i < |steps| && Waits(steps, i, kind, after) ::
              if i < k then PendingInteraction(steps[i]).value.index < p.index
              else PendingInteraction(steps[i]).value.index <= p.index)
  }

  /** `r` is the first WAITING interaction at exactly that place. */
  ghost predicate IsFirstAt(steps: seq<Step>, trajectory: string, index: int, r: Option<Pending>) {
    match r
    case None => forall i: nat | i < |steps| :: !WaitsAt(steps, i, trajectory, index)
    case Some(p) =>
      exists k: nat ::
        && k < |steps| && WaitsAt(steps, k, trajectory, index) && PendingInteraction(steps[k]) == Some(p)
        && (forall i: nat | i < k :: !WaitsAt(steps, i, trajectory, index))
  }

  ghost predicate StillWaiting(steps: seq<Step>, p: Pending) {
    exists i: nat :: i < |steps| && WaitsAt(steps, i, p.trajectoryId, p.index)
  }

  /** The surfaced step itself while it waits, else the freshest of its kind. */
  ghost predicate IsTarget(steps: seq<Step>, surfaced: Pending, r: Option<Pending>) {
    if StillWaiting(steps, surfaced) then IsFirstAt(steps, surfaced.trajectoryId, surfaced.index, r)
    else IsFreshest(steps, surfaced.kind, None, r)
  }

  method FreshestWaiting(steps: seq<Step>, kind: InteractionKind, after: Option<int>) returns (r: Option<Pending>)
    ensures IsFreshest(steps, kind, after, r)
  {
    r := None;
    for i := 0 to |steps|
      invariant r.None? ==> forall j: nat | j < i :: !Waits(steps, j, kind, after)
      invariant r.Some? ==> exists k: nat ::
                  && k < i && Waits(steps, k, kind, after) && PendingInteraction(steps[k]) == r
                  && (forall j: nat | j < i && Waits(steps, j, kind, after) ::
                        if j < k then PendingInteraction(steps[j]).value.index < r.value.index
                        else PendingInteraction(steps[j]).value.index <= r.value.index)
    {
      var pending := PendingInteraction(steps[i]);
      if pending.None? {
        continue;
      }
      if after.Some? && pending.value.index <= after.value {
        continue;
      }
      if pending.value.kind != kind {
        continue;
      }
      if r.None? || pending.value.index > r.value.index {
        assert Waits(steps, i, kind, after);
        r := pending;
      }
    }
  }

  method WaitingStepAt(steps: seq<Step>, trajectory: string, index: int) returns (r: Option<Pending>)
    ensures IsFirstAt(steps, trajectory, index, r)
  {
    for i := 0 to |steps|
      invariant forall j: nat | j < i :: !WaitsAt(steps, j, trajectory, index)
    {
      var pending := PendingInteraction(steps[i]);
      if pending.None? {
        continue;
      }
      if pending.value.trajectoryId == trajectory && pending.value.index == index {
        assert WaitsAt(steps, i, trajectory, index);
        return pending;
      }
    }
    r := None;
  }

  // ----- one round and a whole run -----

  ghost predicate RoundOk<V>(env: Environment<V>, cascade: string, i: nat, r: Round<V>) {
    && r.id == ElicitationId(cascade, r.surfaced.trajectoryId, r.surfaced.index)
    && r.verdict == env.verdict(i)
    && r.snapshot == (if r.verdict.Some? && env.read(i).Snapshot? then Some(env.read(i).steps) else None)
    && (if r.snapshot.Some? then IsTarget(r.snapshot.value, r.surfaced, r.target) else r.target.None?)
    && r.payload == (if r.target.Some? then Some(Payload(r.surfaced.kind, r.verdict.value, r.surfaced.spec)) else None)
    && r.outcome == (if r.target.Some? then Some(env.delivery(i)) else None)
    && (if r.outcome == Some(NotRegistered) && env.reread(i).Snapshot?
        then IsFreshest(env.reread(i).steps, r.surfaced.kind, Some(r.target.value.index), r.retry)
        else r.retry.None?)
  }

  /** Rounds chained by retries: only a round that found a retry is followed by another. */
  ghost predicate Chained<V>(env: Environment<V>, cascade: string, pending: Pending, rounds: seq<Round<V>>) {
    && (rounds != [] ==> rounds[0].surfaced == pending)
    && (forall i: nat | i < |rounds| :: RoundOk(env, cascade, i, rounds[i]))
    && (forall i: nat | 0 < i < |rounds| :: rounds[i - 1].retry == Some(rounds[i].surfaced))
  }

  ghost predicate IsRun<V>(env: Environment<V>, cascade: string, pending: Pending, maxRetries: int, rounds: seq<Round<V>>) {
    && Chained(env, cascade, pending, rounds)
    && |rounds| <= (if maxRetries > 0 then maxRetries else 0)
    && (|rounds| < maxRetries ==> rounds != [] && rounds[|rounds| - 1].retry.None?)
  }

  /** The body of the loop: surface, await the verdict, re-read, deliver, and look for a retry. */
  method PlayRound<V>(env: Environment<V>, cascade: string, attempt: nat, current: Pending) returns (round: Round<V>)
    ensures RoundOk(env, cascade, attempt, round)
    ensures round.surfaced == current
  {
    var eid := ElicitationId(cascade, current.trajectoryId, current.index);
    round := Round(current, eid, None, None, None, None, None, None);
    var result := env.verdict(attempt);
    if result.None? {
      return;
    }
    round := round.(verdict := result);
    var read := env.read(attempt);
    if read.ReadRaises? {
      return;
    }
    round := round.(snapshot := Some(read.steps));
    var target := WaitingStepAt(read.steps, current.trajectoryId, current.index);
    if target.None? {
      target := FreshestWaiting(read.steps, current.kind, None);
    }
    if target.None? {
      return;
    }
    var payload := Payload(current.kind, result.value, current.spec);
    var outcome := env.delivery(attempt);
    round := round.(target := target, payload := Some(payload), outcome := Some(outcome));
    if outcome != NotRegistered {
      return;
    }
    var again := env.reread(attempt);
    if again.ReadRaises? {
      return;
    }
    var retry := FreshestWaiting(again.steps, current.kind, Some(target.value.index));
    round := round.(retry := retry);
  }

  lemma ChainedSnoc<V>(env: Environment<V>, cascade: string, pending: Pending, rounds: seq<Round<V>>, round: Round<V>)
    requires Chained(env, cascade, pending, rounds)
    requires RoundOk(env, cascade, |rounds|, round)
    requires if rounds == [] then round.surfaced == pending else rounds[|rounds| - 1].retry == Some(round.surfaced)
    ensures Chained(env, cascade, pending, rounds + [round])
  {
    var longer := rounds + [round];
    forall i: nat | i < |longer|
      ensures RoundOk(env, cascade, i, longer[i])
    {
      if i < |rounds| {
        assert longer[i] == rounds[i];
      }
    }
  }

  method BridgeInteraction<V>(env: Environment<V>, cascade: string, pending: Pending, maxRetries: int)
    returns (rounds: seq<Round<V>>)
    ensures IsRun(env, cascade, pending, maxRetries, rounds)
  {
    var current := pending;
    rounds := [];
    var attempt := 0;
    while attempt < maxRetries
      invariant 0 <= attempt == |rounds| && (maxRetries > 0 ==> attempt <= maxRetries)
      invariant maxRetries <= 0 ==> attempt == 0
      invariant Chained(env, cascade, pending, rounds)
      invariant rounds == [] ==> current == pending
      invariant rounds != [] ==> rounds[|rounds| - 1].retry == Some(current)
    {
      var round := PlayRound(env, cascade, attempt, current);
      ChainedSnoc(env, cascade, pending, rounds, round);
      rounds := rounds + [round];
      if round.retry.None? {
        return;
      }
      current := round.retry.value;
      attempt := attempt + 1;
    }
  }

  // ----- what every run keeps -----

  /**
   Every delivery answers the gate surfaced in its own round with that round's
   verdict, and goes to a step WAITING in the latest read: the surfaced one
   whenever it still waits.
   */
  lemma DeliveriesAnswerTheSurfacedGate<V>(env: Environment<V>, cascade: string, pending: Pending, maxRetries: int,
                                           rounds: seq<Round<V>>, i: nat)
    requires IsRun(env, cascade, pending, maxRetries, rounds)
    requires i < |rounds| && rounds[i].outcome.Some?
    ensures rounds[i].verdict.Some? && rounds[i].payload.value.verdict == env.verdict(i).value
    ensures rounds[i].payload.value.kind == rounds[i].surfaced.kind
    ensures rounds[i].payload.value.spec == rounds[i].surfaced.spec
    ensures rounds[i].outcome == Some(env.delivery(i)) && env.read(i) == Snapshot(rounds[i].snapshot.value)
    ensures exists k: nat :: k < |rounds[i].snapshot.value|
                             && PendingInteraction(rounds[i].snapshot.value[k]) == rounds[i].target
    ensures StillWaiting(rounds[i].snapshot.value, rounds[i].surfaced) ==>
              && rounds[i].target.value.trajectoryId == rounds[i].surfaced.trajectoryId
              && rounds[i].target.value.index == rounds[i].surfaced.index
    ensures !StillWaiting(rounds[i].snapshot.value, rounds[i].surfaced) ==>
              rounds[i].target.value.kind == rounds[i].surfaced.kind
  {
    assert RoundOk(env, cascade, i, rounds[i]);
  }

  /** Something waits that a delivery could go to: at the surfaced place, or elsewhere but of its kind. */
  ghost predicate SomethingWaits(steps: seq<Step>, p: Pending) {
    exists i: nat :: i < |steps| && (WaitsAt(steps, i, p.trajectoryId, p.index) || Waits(steps, i, p.kind, None))
  }

  /** A verdict is delivered exactly when there is one, the read succeeds and something waits for it. */
  lemma DeliveredExactly<V>(env: Environment<V>, cascade: string, pending: Pending, maxRetries: int,
                            rounds: seq<Round<V>>, i: nat)
    requires IsRun(env, cascade, pending, maxRetries, rounds) && i < |rounds|
    ensures rounds[i].outcome.Some?
            <==> env.verdict(i).Some? && env.read(i).Snapshot? && SomethingWaits(env.read(i).steps, rounds[i].surfaced)
  {
    assert RoundOk(env, cascade, i, rounds[i]);
  }

  /** Another round follows exactly when the step is not registered, attempts remain and a higher gate of the kind waits. */
  lemma GoesOnExactly<V>(env: Environment<V>, cascade: string, pending: Pending, maxRetries: int,
                         rounds: seq<Round<V>>, i: nat)
    requires IsRun(env, cascade, pending, maxRetries, rounds) && i < |rounds|
    ensures i + 1 < |rounds|
            <==> i + 1 < maxRetries && rounds[i].outcome == Some(NotRegistered) && env.reread(i).Snapshot?
                 && var failed := rounds[i].target.value.index;
                    exists k: nat :: k < |env.reread(i).steps|
                                     && Waits(env.reread(i).steps, k, rounds[i].surfaced.kind, Some(failed))
  {
    assert RoundOk(env, cascade, i, rounds[i]);
    if i + 1 < |rounds| {
      assert rounds[i + 1 - 1].retry == Some(rounds[i + 1].surfaced);
    }
  }

  /** A run starts with the gate it was started for, if it may try at all. */
  lemma StartsWithItsGate<V>(env: Environment<V>, cascade: string, pending: Pending, maxRetries: int,
                             rounds: seq<Round<V>>)
    requires IsRun(env, cascade, pending, maxRetries, rounds)
    ensures rounds == [] <==> maxRetries <= 0
    ensures rounds != [] ==> rounds[0].surfaced == pending
  {
  }

  /** At most one delivery succeeds, and only in the last round; no more elicitations are made than allowed. */
  lemma AtMostOneSuccess<V>(env: Environment<V>, cascade: string, pending: Pending, maxRetries: int,
                            rounds: seq<Round<V>>, i: nat)
    requires IsRun(env, cascade, pending, maxRetries, rounds)
    requires i < |rounds| && rounds[i].outcome.Some? && rounds[i].outcome != Some(NotRegistered)
    ensures i == |rounds| - 1
    ensures |rounds| <= maxRetries
  {
    forall k | 0 <= k < |rounds| - 1
      ensures rounds[k].outcome == Some(NotRegistered)
    {
      RetryExceedsFailure(env, cascade, pending, maxRetries, rounds, k + 1);
    }
  }

  /** A retry is of the same kind, follows a failed delivery, and has a higher index than the step that failed. */
  lemma RetryExceedsFailure<V>(env: Environment<V>, cascade: string, pending: Pending, maxRetries: int,
                               rounds: seq<Round<V>>, i: nat)
    requires IsRun(env, cascade, pending, maxRetries, rounds)
    requires 0 < i < |rounds|
    ensures rounds[i - 1].outcome == Some(NotRegistered)
    ensures rounds[i].surfaced.index > rounds[i - 1].target.value.index
    ensures rounds[i].surfaced.kind == pending.kind
    decreases i
  {
    var before := rounds[i - 1];
    assert before.retry == Some(rounds[i].surfaced);
    assert RoundOk(env, cascade, i - 1, before);
    if i > 1 {
      RetryExceedsFailure(env, cascade, pending, maxRetries, rounds, i - 1);
    }
  }

  /** The second read of round `k` shows a gate of the kind above the one just surfaced. */
  ghost predicate Climbs<V>(env: Environment<V>, kind: InteractionKind, rounds: seq<Round<V>>, k: nat)
    requires k < |rounds|
  {
    && env.reread(k).Snapshot?
    && exists i: nat :: i < |env.reread(k).steps| && Waits(env.reread(k).steps, i, kind, Some(rounds[k].surfaced.index))
  }

  ghost predicate Increasing<V>(rounds: seq<Round<V>>) {
    forall i, j | 0 <= i < j < |rounds| :: rounds[i].surfaced.index < rounds[j].surfaced.index
  }

  /** The freshest gate above the failed one is above the surfaced one exactly when any gate is. */
  lemma FreshestClimbs(steps: seq<Step>, kind: InteractionKind, failed: int, surfaced: int, retry: Pending)
    requires IsFreshest(steps, kind, Some(failed), Some(retry))
    ensures retry.index > surfaced <==> exists i: nat :: i < |steps| && Waits(steps, i, kind, Some(surfaced))
  {
    var k: nat :| k < |steps| && Waits(steps, k, kind, Some(failed)) && PendingInteraction(steps[k]) == Some(retry)
                  && (forall i: nat | i < |steps| && Waits(steps, i, kind, Some(failed)) ::
                        if i < k then PendingInteraction(steps[i]).value.index < retry.index
                        else PendingInteraction(steps[i]).value.index <= retry.index);
    if retry.index > surfaced {
      assert Waits(steps, k, kind, Some(surfaced));
    }
    if i: nat :| i < |steps| && Waits(steps, i, kind, Some(surfaced)) {
      assert PendingInteraction(steps[i]).value.index > failed ==> Waits(steps, i, kind, Some(failed));
    }
  }

  lemma NextIsHigherExactly<V>(env: Environment<V>, cascade: string, pending: Pending, maxRetries: int,
                               rounds: seq<Round<V>>, k: nat)
    requires IsRun(env, cascade, pending, maxRetries, rounds) && k + 1 < |rounds|
    ensures rounds[k + 1].surfaced.index > rounds[k].surfaced.index <==> Climbs(env, pending.kind, rounds, k)
  {
    var round, next := rounds[k], rounds[k + 1];
    assert RoundOk(env, cascade, k, round) && rounds[k + 1 - 1].retry == Some(next.surfaced);
    RetryExceedsFailure(env, cascade, pending, maxRetries, rounds, k + 1);
    if k > 0 {
      RetryExceedsFailure(env, cascade, pending, maxRetries, rounds, k);
    }
    FreshestClimbs(env.reread(k).steps, pending.kind, round.target.value.index, round.surfaced.index, next.surfaced);
  }

  /** The surfaced indices strictly increase over a run exactly when every second read that led on shows a higher gate. */
  lemma SurfacedIndicesIncreaseExactly<V>(env: Environment<V>, cascade: string, pending: Pending, maxRetries: int,
                                          rounds: seq<Round<V>>)
    requires IsRun(env, cascade, pending, maxRetries, rounds)
    ensures Increasing(rounds) <==> forall k: nat | k + 1 < |rounds| :: Climbs(env, pending.kind, rounds, k)
  {
    if Increasing(rounds) {
      forall k: nat | k + 1 < |rounds| ensures Climbs(env, pending.kind, rounds, k) {
        NextIsHigherExactly(env, cascade, pending, maxRetries, rounds, k);
      }
    }
    if forall k: nat | k + 1 < |rounds| :: Climbs(env, pending.kind, rounds, k) {
      forall i, j | 0 <= i < j < |rounds| ensures rounds[i].surfaced.index < rounds[j].surfaced.index {
        ClimbsAdd(env, cascade, pending, maxRetries, rounds, i, j);
      }
    }
  }

  lemma {:induction false} ClimbsAdd<V>(env: Environment<V>, cascade: string, pending: Pending, maxRetries: int,
                                        rounds: seq<Round<V>>, i: nat, j: nat)
    requires IsRun(env, cascade, pending, maxRetries, rounds) && i < j < |rounds|
    requires forall k: nat | k + 1 < |rounds| :: Climbs(env, pending.kind, rounds, k)
    ensures rounds[i].surfaced.index < rounds[j].surfaced.index
    decreases j
  {
    NextIsHigherExactly(env, cascade, pending, maxRetries, rounds, j - 1);
    if i < j - 1 {
      ClimbsAdd(env, cascade, pending, maxRetries, rounds, i, j - 1);
    }
  }

  /** The same id is requested in two rounds exactly when they surface the same place; never while the indices increase. */
  lemma IdsRepeatExactly<V>(env: Environment<V>, cascade: string, pending: Pending, maxRetries: int,
                            rounds: seq<Round<V>>, i: nat, j: nat)
    requires IsRun(env, cascade, pending, maxRetries, rounds) && i < j < |rounds|
    ensures rounds[i].id == rounds[j].id
            <==> rounds[i].surfaced.trajectoryId == rounds[j].surfaced.trajectoryId
                 && rounds[i].surfaced.index == rounds[j].surfaced.index
    ensures Increasing(rounds) ==> rounds[i].id != rounds[j].id
  {
    assert RoundOk(env, cascade, i, rounds[i]) && RoundOk(env, cascade, j, rounds[j]);
  }

  /** Every surfaced gate after the first waits in the second read of the round before. */
  lemma RetryWasRead<V>(env: Environment<V>, cascade: string, pending: Pending, maxRetries: int,
                        rounds: seq<Round<V>>, i: nat) returns (s: Step)
    requires IsRun(env, cascade, pending, maxRetries, rounds) && 0 < i < |rounds|
    ensures env.reread(i - 1).Snapshot? && s in env.reread(i - 1).steps && PendingInteraction(s) == Some(rounds[i].surfaced)
  {
    assert rounds[i - 1].retry == Some(rounds[i].surfaced);
    assert RoundOk(env, cascade, i - 1, rounds[i - 1]);
    var steps := env.reread(i - 1).steps;
    var k: nat :| k < |steps| && PendingInteraction(steps[k]) == Some(rounds[i].surfaced);
    s := steps[k];
  }

  /** Some WAITING step of the kind is at or above the index, if any step of the kind is waiting. */
  ghost predicate NeverBelow(steps: seq<Step>, kind: InteractionKind, index: int) {
    (exists i: nat :: i < |steps| && Waits(steps, i, kind, None)) ==>
      exists i: nat :: i < |steps| && Waits(steps, i, kind, None) && PendingInteraction(steps[i]).value.index >= index
  }

  /** So it is in particular if no first read shows the freshest gate of the kind below the surfaced one. */
  lemma SurfacedIndicesIncrease<V>(env: Environment<V>, cascade: string, pending: Pending, maxRetries: int,
                                   rounds: seq<Round<V>>)
    requires IsRun(env, cascade, pending, maxRetries, rounds)
    requires forall k: nat | k < |rounds| && rounds[k].snapshot.Some? ::
               NeverBelow(rounds[k].snapshot.value, pending.kind, rounds[k].surfaced.index)
    ensures Increasing(rounds)
  {
    forall k: nat | k + 1 < |rounds| ensures Climbs(env, pending.kind, rounds, k) {
      assert RoundOk(env, cascade, k, rounds[k]);
      RetryExceedsFailure(env, cascade, pending, maxRetries, rounds, k + 1);
      if k > 0 {
        RetryExceedsFailure(env, cascade, pending, maxRetries, rounds, k);
      }
      TargetNotBelow(rounds[k].snapshot.value, rounds[k].surfaced, rounds[k].target.value);
      NextIsHigherExactly(env, cascade, pending, maxRetries, rounds, k);
    }
    SurfacedIndicesIncreaseExactly(env, cascade, pending, maxRetries, rounds);
  }

  lemma TargetNotBelow(steps: seq<Step>, surfaced: Pending, target: Pending)
    requires IsTarget(steps, surfaced, Some(target))
    requires NeverBelow(steps, surfaced.kind, surfaced.index)
    ensures target.index >= surfaced.index
  {
    if !StillWaiting(steps, surfaced) {
      var k: nat :| k < |steps| && Waits(steps, k, surfaced.kind, None) && PendingInteraction(steps[k]) == Some(target)
                    && (forall i: nat | i < |steps| && Waits(steps, i, surfaced.kind, None) ::
                          if i < k then PendingInteraction(steps[i]).value.index < target.index
                          else PendingInteraction(steps[i]).value.index <= target.index);
      var top: nat :| top < |steps| && Waits(steps, top, surfaced.kind, None)
                      && PendingInteraction(steps[top]).value.index >= surfaced.index;
    }
  }

  /** The first step waiting at the surfaced place, if any, is still of the surfaced kind. */
  ghost predicate PlaceKeepsKind(steps: seq<Step>, surfaced: Pending) {
    forall k: nat | k < |steps| && WaitsAt(steps, k, surfaced.trajectoryId, surfaced.index)
                    && (forall i: nat | i < k :: !WaitsAt(steps, i, surfaced.trajectoryId, surfaced.index)) ::
      PendingInteraction(steps[k]).value.kind == surfaced.kind
  }

  /** The pinned branch checks no kind: a delivery is of its step's own kind exactly when the place kept its kind. */
  lemma DeliveryKindMatches(steps: seq<Step>, surfaced: Pending, target: Pending)
    requires IsTarget(steps, surfaced, Some(target))
    ensures target.kind == surfaced.kind <==> PlaceKeepsKind(steps, surfaced)
  {
    if StillWaiting(steps, surfaced) {
      var k: nat :| k < |steps| && WaitsAt(steps, k, surfaced.trajectoryId, surfaced.index)
                    && PendingInteraction(steps[k]) == Some(target)
                    && (forall i: nat | i < k :: !WaitsAt(steps, i, surfaced.trajectoryId, surfaced.index));
      forall m: nat | m < |steps| && WaitsAt(steps, m, surfaced.trajectoryId, surfaced.index)
                      && (forall i: nat | i < m :: !WaitsAt(steps, i, surfaced.trajectoryId, surfaced.index))
        ensures m == k
      {
        assert !(k < m) && !(m < k);
      }
    }
  }

  const PLAIN_STEP := Step(AskQuestion, Waiting, Some("t"), Some(0), None, None, None, None,
                           None, None, None, None, None, None, None)

  /** A gate that turned from a question into a permission at its own place is answered as a question. */
  lemma KindIsNotChecked()
    ensures var surfaced := Pending(Question, "t", 3, Null);
            var step := PLAIN_STEP.(index := Some(3), request := Some(PermissionRequest(Null)));
            && IsTarget([step], surfaced, PendingInteraction(step))
            && PendingInteraction(step).value.kind != surfaced.kind
  {
    var surfaced := Pending(Question, "t", 3, Null);
    var step := PLAIN_STEP.(index := Some(3), request := Some(PermissionRequest(Null)));
    assert WaitsAt([step], 0, "t", 3);
  }

  const GATE := Pending(Question, "t", 3, Null)
  const LOW_STEP := PLAIN_STEP.(index := Some(1), request := Some(AskRequest(Null)))
  const GATE_STEP := PLAIN_STEP.(index := Some(3), request := Some(AskRequest(Null)))

  /** The surfaced gate is missing from every first read and back in every second one. */
  const FLICKERING: Environment<int> :=
    Environment((i: nat) => Some(0), (i: nat) => Snapshot([LOW_STEP]), (i: nat) => NotRegistered,
                (i: nat) => Snapshot([GATE_STEP]))

  /** When a read falls below the surfaced index, the same id can be requested twice in one run. */
  lemma SurfacedIndicesMayRepeat()
    ensures exists rounds: seq<Round<int>> :: IsRun(FLICKERING, "c", GATE, 2, rounds) && |rounds| == 2 && rounds[0].id == rounds[1].id
  {
    var round := Round(GATE, ElicitationId("c", "t", 3), Some(0), Some([LOW_STEP]), PendingInteraction(LOW_STEP),
                       Some(Payload(Question, 0, Null)), Some(NotRegistered), Some(GATE));
    assert Waits([LOW_STEP], 0, Question, None) && !WaitsAt([LOW_STEP], 0, "t", 3);
    assert Waits([GATE_STEP], 0, Question, Some(1));
    assert RoundOk(FLICKERING, "c", 0, round) && RoundOk(FLICKERING, "c", 1, round);
    assert IsRun(FLICKERING, "c", GATE, 2, [round, round]);
  }
}
