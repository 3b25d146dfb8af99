/**
 Startup replay of dead letters (omnicraft/_native_post_delivery.py,
 `replay_dead_letters`), against an arbitrary transport and clock. Records
 carry an identity here, so that what the server has committed can be counted
 per record across any number of passes.
 */
module DeadLetterReplay {
  import opened Wrappers
  import opened JsonValues
  import opened PostDelivery
  import opened RankedFates
  import opened Sequences

  // ----- classification -----

  predicate InCodes(v: Json, codes: set<int>) {
    exists n | n in AsInt(v) :: n in codes
  }

  /** `_dead_letter_record_replayable` */
  predicate Replayable(e: Json, codes: set<int>) {
    match e
    case Dict(f) =>
      && NonEmptyStr(Get(f, "session_id"))
      && NonEmptyStr(Get(f, "event_type"))
      && Get(f, "payload").Dict?
      && "delivered_ambiguous" in f
      && !Truthy(f["delivered_ambiguous"])
      && (Get(f, "http_status").Null? || InCodes(Get(f, "http_status"), codes))
    case _ => false
  }

  predicate IsItem(e: Json) {
    e.Dict? && Get(e.fields, "event_type") == Str(ITEM_EVENT)
  }

  datatype RepostResult = RepostResult(delivered: bool, ambiguous: bool, httpStatus: Option<int>)

  /** The forwarder's `repost`: one attempt, classified; only conversation items can be ambiguous. */
  function Repost(e: Json, o: PostOutcome): RepostResult {
    match o
    case Responded(status) => RepostResult(status < 400, false, if status < 400 then None else Some(status))
    case Raised(error, _) => RepostResult(false, IsItem(e) && MayHaveBeenDelivered(error), None)
  }

  function StatusJson(s: Option<int>): Json {
    if s.None? then Null else Num(s.value)
  }

  /** The stored classification already equals the one of the latest attempt, in Python's sense. */
  predicate SameClassification(f: map<string, Json>, r: RepostResult) {
    && AsInt(Get(f, "delivered_ambiguous")) == [if r.ambiguous then 1 else 0]
    && (if r.httpStatus.None? then Get(f, "http_status").Null?
        else AsInt(Get(f, "http_status")) == [r.httpStatus.value])
  }

  function Reclassify(e: Json, r: RepostResult): Json {
    if !e.Dict? || SameClassification(e.fields, r) then e
    else Dict(e.fields["delivered_ambiguous" := Bool(r.ambiguous)]["http_status" := StatusJson(r.httpStatus)])
  }

  /** At most the two classification fields differ. */
  predicate OnlyClassificationDiffers(a: Json, b: Json) {
    || a == b
    || (a.Dict? && b.Dict? && a.fields - {"delivered_ambiguous", "http_status"}
                              == b.fields - {"delivered_ambiguous", "http_status"})
  }

  /** A record that failed again stays replayable exactly when the failure was unambiguous and not permanent. */
  lemma ReclassifyDecides(e: Json, r: RepostResult, codes: set<int>)
    requires Replayable(e, codes)
    ensures OnlyClassificationDiffers(e, Reclassify(e, r))
    ensures IsItem(Reclassify(e, r)) == IsItem(e)
    ensures Replayable(Reclassify(e, r), codes)
            <==> !r.ambiguous && (r.httpStatus.Some? ==> r.httpStatus.value in codes)
  {
    var f := e.fields;
    if SameClassification(f, r) {
      assert r.httpStatus.Some? ==> (InCodes(Get(f, "http_status"), codes) <==> r.httpStatus.value in codes) by {
        if r.httpStatus.Some? { assert r.httpStatus.value in AsInt(Get(f, "http_status")); }
      }
    } else {
      var f' := Reclassify(e, r).fields;
      assert f - {"delivered_ambiguous", "http_status"} == f' - {"delivered_ambiguous", "http_status"};
      if r.httpStatus.Some? {
        assert AsInt(Get(f', "http_status")) == [r.httpStatus.value];
      }
    }
  }

  // ----- one file, record by record -----

  datatype Tracked = Tracked(id: nat, entry: Json)

  datatype Conditions = Conditions(
    outcomes: nat -> PostOutcome,
    clock: nat -> int,
    maxRecords: Option<int>,
    deadlineSeconds: Option<int>,
    codes: set<int>)

  datatype Drain = Drain(attempted: nat, replayed: nat, deferred: nat, stop: bool, ticks: nat,
                         retained: seq<Tracked>, changed: bool, posted: seq<Tracked>)

  predicate OverRecords(c: Conditions, d: Drain) {
    c.maxRecords.Some? && d.attempted >= c.maxRecords.value
  }

  /** The deadline is set by the first clock reading and checked against one reading per record. */
  predicate OverDeadline(c: Conditions, d: Drain) {
    c.deadlineSeconds.Some? && c.clock(d.ticks + 1) >= c.clock(0) + c.deadlineSeconds.value
  }

  function StepEntry(c: Conditions, d: Drain, t: Tracked): Drain {
    if !Replayable(t.entry, c.codes) then d.(retained := d.retained + [t])
    else if d.stop then d.(deferred := d.deferred + 1, retained := d.retained + [t])
    else
      var d' := d.(ticks := d.ticks + 1);
      if OverRecords(c, d) || OverDeadline(c, d) then
        d'.(stop := true, deferred := d.deferred + 1, retained := d.retained + [t])
      else
        var r := Repost(t.entry, c.outcomes(d.attempted));
        var d'' := d'.(attempted := d.attempted + 1, posted := d.posted + [t]);
        if r.delivered then d''.(replayed := d.replayed + 1, changed := true)
        else
          d''.(changed := d.changed || Reclassify(t.entry, r) != t.entry,
               retained := d.retained + [Tracked(t.id, Reclassify(t.entry, r))])
  }

  function DrainFile(c: Conditions, d: Drain, items: seq<Tracked>): Drain {
    if items == [] then d
    else StepEntry(c, DrainFile(c, d, items[..|items| - 1]), items[|items| - 1])
  }

  // ----- what draining a list comes to, without the loop -----

  function Test(codes: set<int>): Tracked -> bool {
    (t: Tracked) => Replayable(t.entry, codes)
  }

  /** A delivered record is gone, any other is reclassified by the attempt's outcome. */
  function Fate(outcomes: nat -> PostOutcome): (Tracked, nat) -> seq<Tracked> {
    (t: Tracked, n: nat) =>
      var r := Repost(t.entry, outcomes(n));
      if r.delivered then [] else [Tracked(t.id, Reclassify(t.entry, r))]
  }

  /** The replayable records, in order. */
  function Rep(items: seq<Tracked>, codes: set<int>): seq<Tracked> {
    Selected(items, Test(codes))
  }

  /** What is left when the first `k` replayable records are attempted, the j-th of them getting outcome `base + j`. */
  function Survivors(items: seq<Tracked>, c: Conditions, base: nat, k: nat): seq<Tracked> {
    Result(items, Test(c.codes), Fate(c.outcomes), base, k)
  }

  predicate IsDelivery(o: PostOutcome) {
    o.Responded? && o.status < 400
  }

  /** How many of the outcomes from `base` on, `k` of them, were deliveries. */
  function Deliveries(c: Conditions, base: nat, k: nat): nat {
    if k == 0 then 0
    else Deliveries(c, base, k - 1) + (if IsDelivery(c.outcomes(base + k - 1)) then 1 else 0)
  }

  /** The counters and flags a drain leaves. */
  ghost predicate CountsMatch(c: Conditions, d: Drain, rep: nat, d': Drain, k: nat) {
    && k <= rep
    && d'.attempted == d.attempted + k
    && d'.replayed == d.replayed + Deliveries(c, d.attempted, k)
    && d'.deferred == d.deferred + (rep - k)
    && (k < rep ==> d'.stop)
    && (d.stop ==> d'.stop && k == 0)
  }

  /** After `k` attempts the cap is reached, or the next clock reading is past the deadline. */
  predicate OverBudget(c: Conditions, k: nat) {
    || (c.maxRecords.Some? && k >= c.maxRecords.value)
    || (c.deadlineSeconds.Some? && c.clock(k + 1) >= c.clock(0) + c.deadlineSeconds.value)
  }

  /** Every attempt was within the budget, and a drain that stopped is out of it. */
  ghost predicate Budgeted(c: Conditions, d: Drain) {
    && (forall j: nat | j < d.attempted :: !OverBudget(c, j))
    && (if d.stop then OverBudget(c, d.attempted) else d.ticks == d.attempted)
  }

  lemma StepBudgeted(c: Conditions, d: Drain, t: Tracked)
    requires Budgeted(c, d)
    ensures Budgeted(c, StepEntry(c, d, t))
  {
    assert !d.stop ==> (OverBudget(c, d.attempted) <==> OverRecords(c, d) || OverDeadline(c, d));
  }

  lemma {:induction false} DrainBudgeted(c: Conditions, d: Drain, items: seq<Tracked>)
    requires Budgeted(c, d)
    ensures Budgeted(c, DrainFile(c, d, items))
  {
    if items != [] {
      DrainBudgeted(c, d, items[..|items| - 1]);
      StepBudgeted(c, DrainFile(c, d, items[..|items| - 1]), items[|items| - 1]);
    }
  }

  /** The counters after a file's loop. */
  lemma {:induction false} DrainCounts(c: Conditions, d: Drain, items: seq<Tracked>)
    ensures d.attempted <= DrainFile(c, d, items).attempted
    ensures CountsMatch(c, d, |Rep(items, c.codes)|, DrainFile(c, d, items), DrainFile(c, d, items).attempted - d.attempted)
  {
    if items != [] {
      var init, t := items[..|items| - 1], items[|items| - 1];
      DrainCounts(c, d, init);
      StepCounts(c, d, |Rep(init, c.codes)|, t, DrainFile(c, d, init));
    }
  }

  lemma StepCounts(c: Conditions, d: Drain, rep: nat, t: Tracked, d1: Drain)
    requires d.attempted <= d1.attempted
    requires CountsMatch(c, d, rep, d1, d1.attempted - d.attempted)
    ensures var d2 := StepEntry(c, d1, t);
            CountsMatch(c, d, rep + (if Test(c.codes)(t) then 1 else 0), d2, d2.attempted - d.attempted)
  {
  }

  /** An entry that is not attempted is retained as it is. */
  lemma StepKeeps(c: Conditions, d1: Drain, t: Tracked)
    requires StepEntry(c, d1, t).attempted == d1.attempted
    ensures !Test(c.codes)(t) || StepEntry(c, d1, t).stop
    ensures StepEntry(c, d1, t).retained == d1.retained + [t]
    ensures StepEntry(c, d1, t).posted == d1.posted && StepEntry(c, d1, t).changed == d1.changed
  {
  }

  /** An entry that is attempted meets the fate of its attempt. */
  lemma StepAttempts(c: Conditions, d1: Drain, t: Tracked)
    requires StepEntry(c, d1, t).attempted != d1.attempted
    ensures Test(c.codes)(t) && !d1.stop && StepEntry(c, d1, t).attempted == d1.attempted + 1
    ensures StepEntry(c, d1, t).retained == d1.retained + Fate(c.outcomes)(t, d1.attempted)
    ensures StepEntry(c, d1, t).posted == d1.posted + [t]
    ensures StepEntry(c, d1, t).changed == (d1.changed || Fate(c.outcomes)(t, d1.attempted) != [t])
  {
  }

  lemma LastFate(c: Conditions, d: Drain, init: seq<Tracked>, t: Tracked, d1: Drain, k: nat)
    requires d.attempted <= d1.attempted
    requires CountsMatch(c, d, |Rep(init, c.codes)|, d1, d1.attempted - d.attempted)
    requires StepEntry(c, d1, t).attempted == d.attempted + k
    ensures Survivors(init, c, d.attempted, d1.attempted - d.attempted) == Survivors(init, c, d.attempted, k)
    ensures var fate := FateOf(t, |Rep(init, c.codes)|, Test(c.codes), Fate(c.outcomes), d.attempted, k);
            && StepEntry(c, d1, t).retained == d1.retained + fate
            && StepEntry(c, d1, t).changed == (d1.changed || fate != [t])
  {
    if StepEntry(c, d1, t).attempted == d1.attempted {
      StepKeeps(c, d1, t);
    } else {
      StepAttempts(c, d1, t);
      Saturates(init, Test(c.codes), Fate(c.outcomes), d.attempted, k - 1, k);
    }
  }

  /** The last entry of a file meets its fate; the ones before it had met theirs. */
  lemma DrainLast(c: Conditions, d: Drain, items: seq<Tracked>, k: nat) returns (k1: nat)
    requires items != [] && DrainFile(c, d, items).attempted == d.attempted + k
    ensures var init, t := items[..|items| - 1], items[|items| - 1];
            var d1, d2 := DrainFile(c, d, init), DrainFile(c, d, items);
            var fate := FateOf(t, |Rep(init, c.codes)|, Test(c.codes), Fate(c.outcomes), d.attempted, k);
            && d1.attempted == d.attempted + k1
            && Survivors(init, c, d.attempted, k1) == Survivors(init, c, d.attempted, k)
            && Survivors(items, c, d.attempted, k) == Survivors(init, c, d.attempted, k) + fate
            && d2.retained == d1.retained + fate
            && d2.changed == (d1.changed || fate != [t])
  {
    var init := items[..|items| - 1];
    DrainCounts(c, d, init);
    k1 := DrainFile(c, d, init).attempted - d.attempted;
    LastFate(c, d, init, items[|items| - 1], DrainFile(c, d, init), k);
  }

  /** The entries retained by a file's loop are the survivors. */
  lemma {:induction false} DrainRetains(c: Conditions, d: Drain, items: seq<Tracked>, k: nat)
    requires DrainFile(c, d, items).attempted == d.attempted + k
    ensures DrainFile(c, d, items).retained == d.retained + Survivors(items, c, d.attempted, k)
  {
    if items != [] {
      var init, t := items[..|items| - 1], items[|items| - 1];
      var k1 := DrainLast(c, d, items, k);
      DrainRetains(c, d, init, k1);
      Assoc(d.retained, Survivors(init, c, d.attempted, k),
            FateOf(t, |Rep(init, c.codes)|, Test(c.codes), Fate(c.outcomes), d.attempted, k));
    }
  }

  /** A file's loop attempts a prefix of its replayable records. */
  lemma {:induction false} DrainPosts(c: Conditions, d: Drain, items: seq<Tracked>, k: nat)
    requires DrainFile(c, d, items).attempted == d.attempted + k
    ensures k <= |Rep(items, c.codes)|
    ensures DrainFile(c, d, items).posted == d.posted + Rep(items, c.codes)[..k]
  {
    DrainCounts(c, d, items);
    if items != [] {
      var init, t := items[..|items| - 1], items[|items| - 1];
      var d1 := DrainFile(c, d, init);
      DrainCounts(c, d, init);
      DrainPosts(c, d, init, d1.attempted - d.attempted);
      if k == d1.attempted - d.attempted {
        StepKeeps(c, d1, t);
        assert Rep(items, c.codes)[..k] == Rep(init, c.codes)[..k];
      } else {
        StepAttempts(c, d1, t);
        assert Rep(items, c.codes)[..k] == Rep(init, c.codes)[..k - 1] + [t];
        Assoc(d.posted, Rep(init, c.codes)[..k - 1], [t]);
      }
    }
  }

  /** A file is marked changed unless every entry survived as it was. */
  lemma {:induction false} DrainUnchanged(c: Conditions, d: Drain, items: seq<Tracked>, k: nat)
    requires DrainFile(c, d, items).attempted == d.attempted + k
    requires !DrainFile(c, d, items).changed
    ensures !d.changed && Survivors(items, c, d.attempted, k) == items
  {
    if items != [] {
      var k1 := DrainLast(c, d, items, k);
      DrainUnchanged(c, d, items[..|items| - 1], k1);
      assert items == items[..|items| - 1] + [items[|items| - 1]];
    }
  }

  // ----- a whole pass: the backup file, then the current one -----

  const START := Drain(0, 0, 0, false, 0, [], false, [])

  datatype Pass = Pass(backup: seq<Tracked>, backupChanged: bool, current: seq<Tracked>, currentChanged: bool,
                       attempted: nat, replayed: nat, deferred: nat, posted: seq<Tracked>)

  function ReplayPass(c: Conditions, backup: seq<Tracked>, current: seq<Tracked>): Pass {
    var d1 := DrainFile(c, START, backup);
    var d2 := DrainFile(c, d1.(retained := [], changed := false), current);
    Pass(d1.retained, d1.changed, d2.retained, d2.changed, d2.attempted, d2.replayed, d2.deferred, d2.posted)
  }

  /**
   A pass attempts a prefix of the replayable records, backup file first;
   attempted and deferred records add up to the replayable ones; every attempt
   is within the budget, and the pass stops short only when the next attempt
   would exceed the cap or its clock reading is past the deadline. Each file is
   left with its survivors, and a file that was not changed with exactly what it had.
   */
  lemma PassIs(c: Conditions, backup: seq<Tracked>, current: seq<Tracked>)
    ensures var p := ReplayPass(c, backup, current);
            PassLists(c, backup, current, p) && PassCounts(c, |Rep(backup + current, c.codes)|, p)
  {
    PassKeepsLists(c, backup, current);
    PassKeepsCounts(c, backup, current);
  }

  /** How many records a pass attempts is settled by the budget: no other number would do. */
  lemma AttemptsAreSettled(c: Conditions, rep: nat, p: Pass, q: Pass)
    requires PassCounts(c, rep, p) && PassCounts(c, rep, q)
    ensures p.attempted == q.attempted && p.replayed == q.replayed && p.deferred == q.deferred
    ensures c.maxRecords.Some? ==> p.attempted == 0 || p.attempted <= c.maxRecords.value
  {
    assert p.attempted > 0 ==> !OverBudget(c, p.attempted - 1);
    assert p.attempted < q.attempted ==> !OverBudget(c, p.attempted);
    assert q.attempted < p.attempted ==> !OverBudget(c, q.attempted);
  }

  lemma PassKeepsLists(c: Conditions, backup: seq<Tracked>, current: seq<Tracked>)
    ensures PassLists(c, backup, current, ReplayPass(c, backup, current))
  {
    var k1, p := PiecesOfPass(c, backup, current);
    ListsAreThose(c, backup, current, p, k1);
  }

  lemma PiecesOfPass(c: Conditions, backup: seq<Tracked>, current: seq<Tracked>) returns (k1: nat, p: Pass)
    ensures p == ReplayPass(c, backup, current)
    ensures AreTheLists(c, backup, current, p, k1)
  {
    var k;
    p := ReplayPass(c, backup, current);
    k1, k := AttemptsOfPass(c, backup, current);
    PostsOfPass(c, backup, current, k1, k);
    RetainedOfPass(c, backup, current, k1, k);
    UnchangedOfPass(c, backup, current, k1, k);
  }

  ghost predicate AreTheLists(c: Conditions, backup: seq<Tracked>, current: seq<Tracked>, p: Pass, k1: nat) {
    && k1 <= p.attempted <= |Rep(backup + current, c.codes)|
    && k1 <= |Rep(backup, c.codes)| && (k1 < |Rep(backup, c.codes)| ==> p.attempted == k1)
    && p.posted == Rep(backup + current, c.codes)[..p.attempted]
    && p.backup == Survivors(backup, c, 0, k1) && p.current == Survivors(current, c, k1, p.attempted - k1)
    && (!p.backupChanged ==> p.backup == backup)
    && (!p.currentChanged ==> p.current == current)
  }

  lemma ListsAreThose(c: Conditions, backup: seq<Tracked>, current: seq<Tracked>, p: Pass, k1: nat)
    requires AreTheLists(c, backup, current, p, k1)
    ensures PassLists(c, backup, current, p)
  {
    assert k1 == FromBackup(c, backup, p.attempted);
    SurvivorsAcross(c, backup, current, k1, p.attempted);
  }

  /** How many attempts fall on the backup file, and how many there are in all. */
  lemma AttemptsOfPass(c: Conditions, backup: seq<Tracked>, current: seq<Tracked>) returns (k1: nat, k: nat)
    ensures k1 == DrainFile(c, START, backup).attempted && k1 <= k == ReplayPass(c, backup, current).attempted
    ensures k1 <= |Rep(backup, c.codes)| && (k1 < |Rep(backup, c.codes)| ==> k == k1)
  {
    var d1 := DrainFile(c, START, backup);
    var d1' := d1.(retained := [], changed := false);
    DrainCounts(c, START, backup);
    DrainCounts(c, d1', current);
    k1, k := d1.attempted, DrainFile(c, d1', current).attempted;
  }

  lemma UnchangedOfPass(c: Conditions, backup: seq<Tracked>, current: seq<Tracked>, k1: nat, k: nat)
    requires k1 == DrainFile(c, START, backup).attempted && k1 <= k == ReplayPass(c, backup, current).attempted
    ensures !ReplayPass(c, backup, current).backupChanged ==> Survivors(backup, c, 0, k1) == backup
    ensures !ReplayPass(c, backup, current).currentChanged ==> Survivors(current, c, k1, k - k1) == current
  {
    var d1 := DrainFile(c, START, backup);
    var d1' := d1.(retained := [], changed := false);
    if !d1.changed {
      DrainUnchanged(c, START, backup, k1);
    }
    if !DrainFile(c, d1', current).changed {
      DrainUnchanged(c, d1', current, k - k1);
    }
  }

  lemma PostsOfPass(c: Conditions, backup: seq<Tracked>, current: seq<Tracked>, k1: nat, k: nat)
    requires k1 == DrainFile(c, START, backup).attempted && k1 <= k == ReplayPass(c, backup, current).attempted
    requires k1 < |Rep(backup, c.codes)| ==> k == k1
    ensures k <= |Rep(backup + current, c.codes)|
    ensures ReplayPass(c, backup, current).posted == Rep(backup + current, c.codes)[..k]
  {
    DrainPosts(c, START, backup, k1);
    DrainPosts(c, DrainFile(c, START, backup).(retained := [], changed := false), current, k - k1);
    SelectedAppend(backup, current, Test(c.codes));
    TakeAcross(Rep(backup, c.codes), Rep(current, c.codes), k1, k);
  }

  lemma RetainedOfPass(c: Conditions, backup: seq<Tracked>, current: seq<Tracked>, k1: nat, k: nat)
    requires k1 == DrainFile(c, START, backup).attempted && k1 <= k == ReplayPass(c, backup, current).attempted
    ensures ReplayPass(c, backup, current).backup == Survivors(backup, c, 0, k1)
    ensures ReplayPass(c, backup, current).current == Survivors(current, c, k1, k - k1)
  {
    var d1 := DrainFile(c, START, backup).(retained := [], changed := false);
    DrainRetains(c, START, backup, k1);
    DrainRetains(c, d1, current, k - k1);
    assert [] + Survivors(backup, c, 0, k1) == Survivors(backup, c, 0, k1);
    assert [] + Survivors(current, c, k1, k - k1) == Survivors(current, c, k1, k - k1);
  }

  lemma SurvivorsAcross(c: Conditions, backup: seq<Tracked>, current: seq<Tracked>, k1: nat, k: nat)
    requires k1 <= k && k1 <= |Rep(backup, c.codes)| && (k1 < |Rep(backup, c.codes)| ==> k == k1)
    ensures Survivors(backup, c, 0, k1) + Survivors(current, c, k1, k - k1) == Survivors(backup + current, c, 0, k)
  {
    TwoLists(backup, current, Test(c.codes), Fate(c.outcomes), k1, k);
  }

  lemma PassKeepsCounts(c: Conditions, backup: seq<Tracked>, current: seq<Tracked>)
    ensures PassCounts(c, |Rep(backup + current, c.codes)|, ReplayPass(c, backup, current))
  {
    var d1 := DrainFile(c, START, backup);
    var d1' := d1.(retained := [], changed := false);
    DrainCounts(c, START, backup);
    DrainCounts(c, d1', current);
    DrainBudgeted(c, START, backup);
    DrainBudgeted(c, d1', current);
    SelectedAppend(backup, current, Test(c.codes));
    CountsOfPass(c, |Rep(backup, c.codes)|, |Rep(current, c.codes)|, d1, d1', DrainFile(c, d1', current));
  }

  /** How many of the first `k` attempts fall on the backup file: all it has to offer come first. */
  function FromBackup(c: Conditions, backup: seq<Tracked>, k: nat): (k1: nat)
    ensures k1 <= k
  {
    if k <= |Rep(backup, c.codes)| then k else |Rep(backup, c.codes)|
  }

  ghost predicate PassLists(c: Conditions, backup: seq<Tracked>, current: seq<Tracked>, p: Pass) {
    && p.attempted <= |Rep(backup + current, c.codes)|
    && p.posted == Rep(backup + current, c.codes)[..p.attempted]
    && p.backup == Survivors(backup, c, 0, FromBackup(c, backup, p.attempted))
    && p.current == Survivors(current, c, FromBackup(c, backup, p.attempted), p.attempted - FromBackup(c, backup, p.attempted))
    && p.backup + p.current == Survivors(backup + current, c, 0, p.attempted)
    && (!p.backupChanged ==> p.backup == backup)
    && (!p.currentChanged ==> p.current == current)
  }

  ghost predicate PassCounts(c: Conditions, rep: nat, p: Pass) {
    && p.replayed == Deliveries(c, 0, p.attempted)
    && p.attempted + p.deferred == rep
    && (forall j: nat | j < p.attempted :: !OverBudget(c, j))
    && (p.attempted < rep ==> OverBudget(c, p.attempted))
  }

  lemma CountsOfPass(c: Conditions, repB: nat, repC: nat, d1: Drain, d1': Drain, d2: Drain)
    requires d1' == d1.(retained := [], changed := false) && d1.attempted <= d2.attempted
    requires CountsMatch(c, START, repB, d1, d1.attempted)
    requires CountsMatch(c, d1', repC, d2, d2.attempted - d1.attempted)
    requires Budgeted(c, d2)
    ensures PassCounts(c, repB + repC, Pass(d1.retained, d1.changed, d2.retained, d2.changed,
                                            d2.attempted, d2.replayed, d2.deferred, d2.posted))
  {
    DeliveriesAdd(c, 0, d1.attempted, d2.attempted - d1.attempted);
  }

  lemma {:induction false} DeliveriesAdd(c: Conditions, base: nat, m: nat, n: nat)
    ensures Deliveries(c, base, m + n) == Deliveries(c, base, m) + Deliveries(c, base + m, n)
  {
    if n > 0 {
      DeliveriesAdd(c, base, m, n - 1);
    }
  }

  // ----- conservation -----

  ghost predicate DistinctIds(items: seq<Tracked>) {
    forall i, j | 0 <= i < j < |items| :: items[i].id != items[j].id
  }

  function WithoutIds(items: seq<Tracked>, gone: set<nat>): seq<Tracked> {
    if items == [] then []
    else
      WithoutIds(items[..|items| - 1], gone)
      + (if items[|items| - 1].id in gone then [] else [items[|items| - 1]])
  }

  /** Ids of the attempted records whose attempt was a delivery. */
  function DeliveredIds(posted: seq<Tracked>, c: Conditions): set<nat> {
    set j | 0 <= j < |posted| && IsDelivery(c.outcomes(j)) :: posted[j].id
  }

  ghost predicate SameUpToClassification(a: seq<Tracked>, b: seq<Tracked>, posted: seq<Tracked>) {
    && |a| == |b|
    && forall i | 0 <= i < |a| ::
         && a[i].id == b[i].id
         && OnlyClassificationDiffers(a[i].entry, b[i].entry)
         && (a[i] !in posted ==> a[i] == b[i])
  }

  lemma {:induction false} RepDistinct(items: seq<Tracked>, codes: set<int>)
    requires DistinctIds(items)
    ensures DistinctIds(Rep(items, codes))
  {
    if items != [] {
      var init := items[..|items| - 1];
      RepDistinct(init, codes);
      SelectedFrom(init, Test(codes));
      forall j | 0 <= j < |Rep(init, codes)| ensures Rep(init, codes)[j].id != items[|items| - 1].id {
        assert Rep(init, codes)[j] in init;
      }
    }
  }

  /** Of the records to be attempted from `base` on, `k` of them, exactly the delivered are gone; of the others none. */
  ghost predicate GoneExactly(items: seq<Tracked>, c: Conditions, base: nat, k: nat, posted: seq<Tracked>, gone: set<nat>) {
    && (forall j | 0 <= j < |Rep(items, c.codes)| ::
          && (Rep(items, c.codes)[j].id in gone <==> j < k && IsDelivery(c.outcomes(base + j)))
          && (j < k ==> Rep(items, c.codes)[j] in posted))
    && (forall t | t in items && !Replayable(t.entry, c.codes) :: t.id !in gone)
  }

  lemma {:induction false} SurvivorsConserve(items: seq<Tracked>, c: Conditions, base: nat, k: nat,
                                             posted: seq<Tracked>, gone: set<nat>)
    requires GoneExactly(items, c, base, k, posted, gone)
    ensures SameUpToClassification(WithoutIds(items, gone), Survivors(items, c, base, k), posted)
  {
    if items != [] {
      var init, t := items[..|items| - 1], items[|items| - 1];
      var rep0, rep := Rep(init, c.codes), Rep(items, c.codes);
      assert forall j | 0 <= j < |rep0| :: rep[j] == rep0[j];
      SurvivorsConserve(init, c, base, k, posted, gone);
      assert Test(c.codes)(t) ==> rep[|rep0|] == t;
      FateConserves(c, t, |rep0|, base, k, posted, gone);
    }
  }

  lemma FateConserves(c: Conditions, t: Tracked, j: nat, base: nat, k: nat, posted: seq<Tracked>, gone: set<nat>)
    requires Test(c.codes)(t) ==>
               (t.id in gone <==> j < k && IsDelivery(c.outcomes(base + j))) && (j < k ==> t in posted)
    requires !Test(c.codes)(t) ==> t.id !in gone
    ensures SameUpToClassification(if t.id in gone then [] else [t],
                                   FateOf(t, j, Test(c.codes), Fate(c.outcomes), base, k), posted)
  {
    if Test(c.codes)(t) {
      ReclassifyDecides(t.entry, Repost(t.entry, c.outcomes(base + j)), c.codes);
    }
  }

  /**
   Conservation: a pass leaves in each file, in order, exactly that file's
   records less the delivered ones; only attempted ones may have changed, and
   of those only the two classification fields.
   */
  lemma PassConserves(c: Conditions, backup: seq<Tracked>, current: seq<Tracked>)
    requires DistinctIds(backup + current)
    ensures var p := ReplayPass(c, backup, current);
            && Conserved(c, backup, p.backup, p.posted)
            && Conserved(c, current, p.current, p.posted)
            && p.replayed == Deliveries(c, 0, |p.posted|)
  {
    PassKeepsCounts(c, backup, current);
    var p := PassSplits(c, backup, current);
    BackupConserves(c, backup, current, p.attempted, p.posted, p.backup);
    CurrentConserves(c, backup, current, p.attempted, p.posted, p.current);
  }

  /** `after` is `before` less the records delivered among those posted, up to the classification of those attempted. */
  ghost predicate Conserved(c: Conditions, before: seq<Tracked>, after: seq<Tracked>, posted: seq<Tracked>) {
    SameUpToClassification(WithoutIds(before, DeliveredIds(posted, c)), after, posted)
  }

  lemma PassSplits(c: Conditions, backup: seq<Tracked>, current: seq<Tracked>) returns (p: Pass)
    ensures p == ReplayPass(c, backup, current)
    ensures p.attempted <= |Rep(backup + current, c.codes)| && |p.posted| == p.attempted
    ensures p.posted == Rep(backup + current, c.codes)[..p.attempted]
    ensures p.backup == Survivors(backup, c, 0, FromBackup(c, backup, p.attempted))
    ensures p.current == Survivors(current, c, FromBackup(c, backup, p.attempted),
                                   p.attempted - FromBackup(c, backup, p.attempted))
  {
    p := ReplayPass(c, backup, current);
    PassKeepsLists(c, backup, current);
  }

  lemma BackupConserves(c: Conditions, backup: seq<Tracked>, current: seq<Tracked>, k: nat, posted: seq<Tracked>,
                        left: seq<Tracked>)
    requires DistinctIds(backup + current) && k <= |Rep(backup + current, c.codes)|
    requires posted == Rep(backup + current, c.codes)[..k]
    requires left == Survivors(backup, c, 0, FromBackup(c, backup, k))
    ensures Conserved(c, backup, left, posted)
  {
    var gone := DeliveredIds(posted, c);
    DeliveredExactly(c, backup + current, k);
    GoneFromBackup(c, backup, current, k, posted, gone);
    SurvivorsConserve(backup, c, 0, FromBackup(c, backup, k), posted, gone);
  }

  lemma CurrentConserves(c: Conditions, backup: seq<Tracked>, current: seq<Tracked>, k: nat, posted: seq<Tracked>,
                         left: seq<Tracked>)
    requires DistinctIds(backup + current) && k <= |Rep(backup + current, c.codes)|
    requires posted == Rep(backup + current, c.codes)[..k]
    requires left == Survivors(current, c, FromBackup(c, backup, k), k - FromBackup(c, backup, k))
    ensures Conserved(c, current, left, posted)
  {
    var gone := DeliveredIds(posted, c);
    DeliveredExactly(c, backup + current, k);
    GoneFromCurrent(c, backup, current, k, posted, gone);
    SurvivorsConserve(current, c, FromBackup(c, backup, k), k - FromBackup(c, backup, k), posted, gone);
  }

  lemma GoneFromBackup(c: Conditions, backup: seq<Tracked>, current: seq<Tracked>, k: nat, posted: seq<Tracked>, gone: set<nat>)
    requires k <= |Rep(backup + current, c.codes)| && GoneExactly(backup + current, c, 0, k, posted, gone)
    ensures GoneExactly(backup, c, 0, FromBackup(c, backup, k), posted, gone)
  {
    SelectedAppend(backup, current, Test(c.codes));
    var mine, rep, k1 := Rep(backup, c.codes), Rep(backup + current, c.codes), FromBackup(c, backup, k);
    forall j | 0 <= j < |mine|
      ensures (mine[j].id in gone <==> j < k1 && IsDelivery(c.outcomes(0 + j))) && (j < k1 ==> mine[j] in posted)
    {
      assert mine[j] == rep[j];
    }
    assert forall t | t in backup :: t in backup + current;
  }

  lemma GoneFromCurrent(c: Conditions, backup: seq<Tracked>, current: seq<Tracked>, k: nat, posted: seq<Tracked>, gone: set<nat>)
    requires k <= |Rep(backup + current, c.codes)| && GoneExactly(backup + current, c, 0, k, posted, gone)
    ensures GoneExactly(current, c, FromBackup(c, backup, k), k - FromBackup(c, backup, k), posted, gone)
  {
    SelectedAppend(backup, current, Test(c.codes));
    var n, mine, rep := |Rep(backup, c.codes)|, Rep(current, c.codes), Rep(backup + current, c.codes);
    var k1 := FromBackup(c, backup, k);
    forall j | 0 <= j < |mine|
      ensures (mine[j].id in gone <==> j < k - k1 && IsDelivery(c.outcomes(k1 + j))) && (j < k - k1 ==> mine[j] in posted)
    {
      assert mine[j] == rep[n + j];
      assert rep[n + j].id in gone <==> n + j < k && IsDelivery(c.outcomes(0 + (n + j)));
    }
    assert forall t | t in current :: t in backup + current;
  }

  /** The two files together, for those who do not care which file a record is in. */
  lemma {:induction false} WithoutAppend(a: seq<Tracked>, b: seq<Tracked>, gone: set<nat>)
    ensures WithoutIds(a + b, gone) == WithoutIds(a, gone) + WithoutIds(b, gone)
  {
    if b == [] {
      assert a + b == a;
    } else {
      assert (a + b)[..|a + b| - 1] == a + b[..|b| - 1];
      WithoutAppend(a, b[..|b| - 1], gone);
    }
  }

  lemma DeliveredExactly(c: Conditions, items: seq<Tracked>, k: nat)
    requires DistinctIds(items) && k <= |Rep(items, c.codes)|
    ensures var posted := Rep(items, c.codes)[..k];
            GoneExactly(items, c, 0, k, posted, DeliveredIds(posted, c))
  {
    var rep := Rep(items, c.codes);
    var posted := rep[..k];
    SelectedFrom(items, Test(c.codes));
    RepDistinct(items, c.codes);
    forall t | t in items && !Replayable(t.entry, c.codes)
      ensures t.id !in DeliveredIds(posted, c)
    {
      forall j | 0 <= j < |posted| ensures posted[j].id != t.id {
        assert posted[j] == rep[j];
        DistinctRecords(items, t, rep[j]);
      }
    }
    forall j | 0 <= j < |rep|
      ensures rep[j].id in DeliveredIds(posted, c) <==> j < k && IsDelivery(c.outcomes(j))
      ensures j < k ==> rep[j] in posted
    {
      if j < k {
        assert posted[j] == rep[j];
      }
    }
  }

  lemma DistinctRecords(items: seq<Tracked>, a: Tracked, b: Tracked)
    requires DistinctIds(items) && a in items && b in items && a != b
    ensures a.id != b.id
  {
  }
}
