/** Detection of a `/clear` rotation among the cascades of one agy process (omnicraft/antigravity_native_reader.py). */
module RotationDetection {
  import opened Wrappers

  /** Timestamps are points on one time line; an absent or unparseable one is `None`. */
  datatype Summary = NotAnObject | Summary(isRoot: bool, lastUserInput: Option<int>, lastModified: Option<int>)
  datatype Entry = Entry(id: string, summary: Summary)

  /** The summaries in the order the JSON object lists them. */
  type Summaries = seq<Entry>

  ghost predicate DistinctIds(xs: Summaries) {
    forall i, j | 0 <= i < j < |xs| :: xs[i].id != xs[j].id
  }

  /** `_summary_activity` */
  function Activity(s: Summary): Option<int> {
    if s.NotAnObject? then None else if s.lastUserInput.Some? then s.lastUserInput else s.lastModified
  }

  function Lookup(xs: Summaries, id: string): Option<Summary> {
    if xs == [] then None else if xs[0].id == id then Some(xs[0].summary) else Lookup(xs[1..], id)
  }

  /** A root cascade other than the bound one that has been used. */
  predicate Candidate(e: Entry, bound: string) {
    e.summary.Summary? && e.summary.isRoot && e.id != bound && Activity(e.summary).Some?
  }

  function ActivityOf(e: Entry): int {
    Activity(e.summary).GetOr(0)
  }

  predicate Newer(activity: int, than: Option<int>) {
    than.None? || activity > than.value
  }

  predicate CanBeLeft(xs: Summaries, bound: string) {
    Lookup(xs, bound).Some? && Lookup(xs, bound).value.Summary?
  }

  /** The first of the most recently active candidates. */
  function Best(xs: Summaries, bound: string): Option<Entry> {
    if xs == [] then None
    else
      var best, e := Best(xs[..|xs| - 1], bound), xs[|xs| - 1];
      if Candidate(e, bound) && (best.None? || ActivityOf(e) > ActivityOf(best.value)) then Some(e) else best
  }

  function Rotation(xs: Summaries, bound: string): Option<string> {
    if !CanBeLeft(xs, bound) then None
    else
      var best := Best(xs, bound);
      if best.Some? && Newer(ActivityOf(best.value), Activity(Lookup(xs, bound).value)) then Some(best.value.id) else None
  }

  method GetSummary(xs: Summaries, id: string) returns (r: Option<Summary>)
    ensures r == Lookup(xs, id)
  {
    for i := 0 to |xs|
      invariant Lookup(xs, id) == Lookup(xs[i..], id)
    {
      if xs[i].id == id {
        return Some(xs[i].summary);
      }
      assert xs[i..][1..] == xs[i + 1..];
    }
    r := None;
  }

  /** `_detect_rotated_cascade` */
  method DetectRotatedCascade(xs: Summaries, bound: string) returns (r: Option<string>)
    ensures r == Rotation(xs, bound)
  {
    var boundSummary := GetSummary(xs, bound);
    if boundSummary.None? || boundSummary.value.NotAnObject? {
      return None;
    }
    var boundActivity := Activity(boundSummary.value);
    var bestId: Option<string> := None;
    var bestActivity: Option<int> := None;
    for i := 0 to |xs|
      invariant bestId == (match Best(xs[..i], bound) case Some(e) => Some(e.id) case None => None)
      invariant bestActivity == (match Best(xs[..i], bound) case Some(e) => Some(ActivityOf(e)) case None => None)
    {
      assert xs[..i + 1][..i] == xs[..i];
      var summary := xs[i].summary;
      if summary.NotAnObject? {
        continue;
      }
      if !summary.isRoot {
        continue;
      }
      if xs[i].id == bound {
        continue;
      }
      var activity := Activity(summary);
      if activity.None? {
        continue;
      }
      if bestActivity.None? || activity.value > bestActivity.value {
        bestId, bestActivity := Some(xs[i].id), activity;
      }
    }
    assert xs[..|xs|] == xs;
    if bestId.None? || bestActivity.None? {
      return None;
    }
    if boundActivity.None? || bestActivity.value > boundActivity.value {
      return bestId;
    }
    r := None;
  }

  // ----- what is detected -----

  lemma {:induction false} BestIsFirstMaximum(xs: Summaries, bound: string)
    ensures match Best(xs, bound)
            case None => forall e | e in xs :: !Candidate(e, bound)
            case Some(b) =>
              && b in xs && Candidate(b, bound)
              && (forall e | e in xs && Candidate(e, bound) :: ActivityOf(e) <= ActivityOf(b))
              && exists k :: 0 <= k < |xs| && xs[k] == b
                             && forall j | 0 <= j < k && Candidate(xs[j], bound) :: ActivityOf(xs[j]) < ActivityOf(b)
  {
    if xs != [] {
      var init, e := xs[..|xs| - 1], xs[|xs| - 1];
      BestIsFirstMaximum(init, bound);
      assert xs == init + [e];
      assert forall j | 0 <= j < |init| :: xs[j] == init[j] && xs[j] in init;
      if Best(xs, bound) == Some(e) {
        assert xs[|xs| - 1] == e;
      } else if Best(xs, bound).Some? {
        var b := Best(xs, bound).value;
        var k :| 0 <= k < |init| && init[k] == b
                 && forall j | 0 <= j < k && Candidate(init[j], bound) :: ActivityOf(init[j]) < ActivityOf(b);
        assert xs[k] == b;
      }
    }
  }

  lemma {:induction false} LookupFinds(xs: Summaries, e: Entry)
    requires DistinctIds(xs) && e in xs
    ensures Lookup(xs, e.id) == Some(e.summary)
  {
    if xs[0] != e {
      assert e in xs[1..];
      LookupFinds(xs[1..], e);
      var k :| 0 <= k < |xs| && xs[k] == e;
      assert xs[0].id != xs[k].id;
    }
  }

  /**
   What is returned is a root cascade other than the bound one, of maximal
   activity and strictly newer than the bound one; and one is returned exactly
   when the bound one is listed and some root cascade is newer.
   */
  lemma RotatesToTheNewest(xs: Summaries, bound: string)
    ensures match Rotation(xs, bound)
            case Some(id) =>
              exists e :: e in xs && e.id == id && Candidate(e, bound)
                          && Newer(ActivityOf(e), Activity(Lookup(xs, bound).value))
                          && forall f | f in xs && Candidate(f, bound) :: ActivityOf(f) <= ActivityOf(e)
            case None =>
              CanBeLeft(xs, bound) ==>
                forall f | f in xs && Candidate(f, bound) :: !Newer(ActivityOf(f), Activity(Lookup(xs, bound).value))
  {
    BestIsFirstMaximum(xs, bound);
  }

  /** Another order of the same summaries gives the same answer, or one just as recently active. */
  lemma OrderMattersOnlyOnTies(xs: Summaries, ys: Summaries, bound: string)
    requires DistinctIds(xs) && DistinctIds(ys)
    requires forall e :: e in xs <==> e in ys
    ensures Rotation(xs, bound).None? <==> Rotation(ys, bound).None?
    ensures Rotation(xs, bound).Some? ==>
              exists e, f :: && e in xs && f in xs && e.id == Rotation(xs, bound).value && f.id == Rotation(ys, bound).value
                             && ActivityOf(e) == ActivityOf(f)
  {
    BestIsFirstMaximum(xs, bound);
    BestIsFirstMaximum(ys, bound);
    SameLookup(xs, ys, bound);
  }

  lemma {:induction false} LookupIsListed(xs: Summaries, id: string)
    ensures match Lookup(xs, id)
            case Some(s) => Entry(id, s) in xs
            case None => forall e | e in xs :: e.id != id
  {
    if xs != [] && xs[0].id != id {
      LookupIsListed(xs[1..], id);
      assert forall e :: e in xs <==> e == xs[0] || e in xs[1..];
    }
  }

  lemma SameLookup(xs: Summaries, ys: Summaries, id: string)
    requires DistinctIds(xs) && DistinctIds(ys)
    requires forall e :: e in xs <==> e in ys
    ensures Lookup(xs, id) == Lookup(ys, id)
  {
    LookupIsListed(xs, id);
    LookupIsListed(ys, id);
    if Lookup(xs, id).Some? {
      LookupFinds(ys, Entry(id, Lookup(xs, id).value));
    }
  }

  /** Once rebound to the answer, the same summaries call for no further rotation. */
  lemma RebindingSettles(xs: Summaries, bound: string)
    requires DistinctIds(xs) && Rotation(xs, bound).Some?
    ensures Rotation(xs, Rotation(xs, bound).value) == None
  {
    var id := Rotation(xs, bound).value;
    BestIsFirstMaximum(xs, bound);
    BestIsFirstMaximum(xs, id);
    LookupFinds(xs, Best(xs, bound).value);
    var own := Lookup(xs, bound).value;
    if Best(xs, id).Some? && Best(xs, id).value.id == bound {
      LookupFinds(xs, Best(xs, id).value);
    }
  }

  // ----- by the two timestamps -----

  /** When a cascade was last used: at the user's last turn, or without one when it was last modified. */
  predicate UsedAt(s: Summary, t: int) {
    && s.Summary?
    && (s.lastUserInput == Some(t) || (s.lastUserInput.None? && s.lastModified == Some(t)))
  }

  lemma ActivityExactly(s: Summary, t: int)
    ensures UsedAt(s, t) <==> Activity(s) == Some(t)
  {
  }

  /** A cascade the binding may move to: another root cascade, used later than the bound one if that was used at all. */
  ghost predicate CanTakeOver(xs: Summaries, e: Entry, bound: string, t: int) {
    && e in xs && e.id != bound && UsedAt(e.summary, t) && e.summary.isRoot
    && forall own | Lookup(xs, bound).Some? && UsedAt(Lookup(xs, bound).value, own) :: t > own
  }

  lemma TakesOverExactly(xs: Summaries, e: Entry, bound: string, t: int)
    requires CanBeLeft(xs, bound)
    ensures CanTakeOver(xs, e, bound, t)
            <==> e in xs && Candidate(e, bound) && ActivityOf(e) == t && Newer(t, Activity(Lookup(xs, bound).value))
  {
    ActivityExactly(e.summary, t);
    forall own ensures UsedAt(Lookup(xs, bound).value, own) <==> Activity(Lookup(xs, bound).value) == Some(own) {
      ActivityExactly(Lookup(xs, bound).value, own);
    }
  }

  /**
   Detection, said of the fields: the answer can take over and no other cascade
   that can was used later; there is none exactly when none can, or the bound
   cascade is not listed.
   */
  lemma DetectsOnFields(xs: Summaries, bound: string)
    ensures match Rotation(xs, bound)
            case Some(id) =>
              Lookup(xs, bound).Some? && Lookup(xs, bound).value.Summary?
              && exists e, t :: CanTakeOver(xs, e, bound, t) && e.id == id
                                && forall f, u | CanTakeOver(xs, f, bound, u) :: u <= t
            case None =>
              Lookup(xs, bound).Some? && Lookup(xs, bound).value.Summary? ==>
                forall f, u :: !CanTakeOver(xs, f, bound, u)
  {
    if CanBeLeft(xs, bound) {
      RotatesToTheNewest(xs, bound);
      forall e, t
        ensures CanTakeOver(xs, e, bound, t)
                <==> e in xs && Candidate(e, bound) && ActivityOf(e) == t && Newer(t, Activity(Lookup(xs, bound).value))
      {
        TakesOverExactly(xs, e, bound, t);
      }
      if Rotation(xs, bound).Some? {
        var e :| e in xs && e.id == Rotation(xs, bound).value && Candidate(e, bound)
                 && Newer(ActivityOf(e), Activity(Lookup(xs, bound).value))
                 && forall f | f in xs && Candidate(f, bound) :: ActivityOf(f) <= ActivityOf(e);
        assert CanTakeOver(xs, e, bound, ActivityOf(e));
      }
    }
  }

  /** The two entries differ at most in when a cascade that the user has taken a turn in was last modified. */
  predicate SameButModified(e: Entry, f: Entry) {
    && e.id == f.id
    && (e.summary == f.summary
        || (e.summary.Summary? && f.summary.Summary? && e.summary.isRoot == f.summary.isRoot
            && e.summary.lastUserInput == f.summary.lastUserInput && e.summary.lastUserInput.Some?))
  }

  /** When a cascade was last modified makes no difference once the user has taken a turn in it. */
  lemma ModificationDoesNotMatter(xs: Summaries, ys: Summaries, bound: string)
    requires |xs| == |ys| && forall i | 0 <= i < |xs| :: SameButModified(xs[i], ys[i])
    ensures Rotation(xs, bound) == Rotation(ys, bound)
  {
    BestIgnoresModification(xs, ys, bound);
    LookupIgnoresModification(xs, ys, bound);
  }

  lemma {:induction false} BestIgnoresModification(xs: Summaries, ys: Summaries, bound: string)
    requires |xs| == |ys| && forall i | 0 <= i < |xs| :: SameButModified(xs[i], ys[i])
    ensures match (Best(xs, bound), Best(ys, bound))
            case (None, None) => true
            case (Some(e), Some(f)) => SameButModified(e, f) && ActivityOf(e) == ActivityOf(f)
            case _ => false
  {
    if xs != [] {
      var n := |xs| - 1;
      BestIgnoresModification(xs[..n], ys[..n], bound);
      assert SameButModified(xs[n], ys[n]);
    }
  }

  lemma {:induction false} LookupIgnoresModification(xs: Summaries, ys: Summaries, id: string)
    requires |xs| == |ys| && forall i | 0 <= i < |xs| :: SameButModified(xs[i], ys[i])
    ensures match (Lookup(xs, id), Lookup(ys, id))
            case (None, None) => true
            case (Some(s), Some(t)) => SameButModified(Entry(id, s), Entry(id, t))
            case _ => false
  {
    if xs != [] {
      assert SameButModified(xs[0], ys[0]);
      LookupIgnoresModification(xs[1..], ys[1..], id);
    }
  }

  /** The user took a turn in the cascade at that time. */
  predicate TurnAt(s: Summary, t: int) {
    s.Summary? && s.lastUserInput == Some(t)
  }

  predicate OtherTurn(xs: Summaries, e: Entry, bound: string, t: int) {
    e in xs && e.id != bound && TurnAt(e.summary, t) && e.summary.isRoot
  }

  /** Where the user has taken a turn in every cascade, the newest turn in another root cascade decides. */
  lemma NewestTurnDecides(xs: Summaries, bound: string, own: int)
    requires forall e | e in xs && e.summary.Summary? :: e.summary.lastUserInput.Some?
    requires Lookup(xs, bound).Some? && TurnAt(Lookup(xs, bound).value, own)
    ensures match Rotation(xs, bound)
            case Some(id) =>
              exists e, t :: && OtherTurn(xs, e, bound, t) && e.id == id && t > own
                             && forall f, u | OtherTurn(xs, f, bound, u) :: u <= t
            case None =>
              forall f, u | OtherTurn(xs, f, bound, u) :: u <= own
  {
    DetectsOnFields(xs, bound);
    forall f, u | OtherTurn(xs, f, bound, u) && u > own
      ensures CanTakeOver(xs, f, bound, u)
    {
      assert UsedAt(f.summary, u);
    }
    if Rotation(xs, bound).Some? {
      var e, t :| CanTakeOver(xs, e, bound, t) && e.id == Rotation(xs, bound).value
                  && forall f, u | CanTakeOver(xs, f, bound, u) :: u <= t;
      assert UsedAt(Lookup(xs, bound).value, own) && OtherTurn(xs, e, bound, t);
    }
  }

  // ----- a chain of rotations -----

  ghost predicate NeverDecreasing(snapshots: seq<Summaries>) {
    forall i, j, id | 0 <= i <= j < |snapshots| && Lookup(snapshots[i], id).Some? && Activity(Lookup(snapshots[i], id).value).Some? ::
      && Lookup(snapshots[j], id).Some? && Activity(Lookup(snapshots[j], id).value).Some?
      && Activity(Lookup(snapshots[i], id).value).value <= Activity(Lookup(snapshots[j], id).value).value
  }

  predicate Rebinds(xs: Summaries, bounds: seq<string>, i: nat)
    requires i + 1 < |bounds|
  {
    Rotation(xs, bounds[i]) == Some(bounds[i + 1])
  }

  /** Each snapshot rotates the binding to the next one. */
  ghost predicate IsChain(snapshots: seq<Summaries>, bounds: seq<string>) {
    && |bounds| == |snapshots| + 1
    && (forall i | 0 <= i < |snapshots| :: DistinctIds(snapshots[i]))
    && (forall i | 0 <= i < |snapshots| :: Rebinds(snapshots[i], bounds, i))
  }

  function ChosenActivity(snapshots: seq<Summaries>, bounds: seq<string>, i: nat): Option<int>
    requires i < |snapshots| && |bounds| == |snapshots| + 1
  {
    match Lookup(snapshots[i], bounds[i + 1])
    case Some(s) => Activity(s)
    case None => None
  }

  /** If activities never decrease, the chosen activities strictly increase along a chain of rotations. */
  lemma {:induction false} ChainIncreases(snapshots: seq<Summaries>, bounds: seq<string>, i: nat, j: nat)
    requires IsChain(snapshots, bounds) && NeverDecreasing(snapshots)
    requires i < j < |snapshots|
    ensures ChosenActivity(snapshots, bounds, i).Some? && ChosenActivity(snapshots, bounds, j).Some?
    ensures ChosenActivity(snapshots, bounds, i).value < ChosenActivity(snapshots, bounds, j).value
    decreases j
  {
    assert Rebinds(snapshots[j], bounds, j) && Rebinds(snapshots[j - 1], bounds, j - 1);
    ChosenIsNewer(snapshots[j], bounds[j]);
    ChosenIsNewer(snapshots[j - 1], bounds[j - 1]);
    assert Lookup(snapshots[j - 1], bounds[j]).Some? && Activity(Lookup(snapshots[j - 1], bounds[j]).value).Some?;
    if i < j - 1 {
      ChainIncreases(snapshots, bounds, i, j - 1);
    }
  }

  lemma ChosenIsNewer(xs: Summaries, bound: string)
    requires DistinctIds(xs) && Rotation(xs, bound).Some?
    ensures Lookup(xs, bound).Some?
    ensures Lookup(xs, Rotation(xs, bound).value).Some?
    ensures var chosen := Activity(Lookup(xs, Rotation(xs, bound).value).value);
            chosen.Some? && Newer(chosen.value, Activity(Lookup(xs, bound).value))
  {
    BestIsFirstMaximum(xs, bound);
    LookupFinds(xs, Best(xs, bound).value);
  }

  // ----- the detector task -----

  /** One tick: the fetch failed, or the body held no summaries object, or it did. */
  datatype Tick = FetchFailed | NoSummaries | Fetched(summaries: Summaries)

  function Signal(t: Tick, bound: string, skip: set<string>): Option<string> {
    if !t.Fetched? then None
    else
      var id := Rotation(t.summaries, bound);
      if id.Some? && id.value !in skip then id else None
  }

  function FirstSignal(ticks: seq<Tick>, bound: string, skip: set<string>): Option<string> {
    if ticks == [] then None
    else if Signal(ticks[0], bound, skip).Some? then Signal(ticks[0], bound, skip)
    else FirstSignal(ticks[1..], bound, skip)
  }

  /** `_watch_for_rotation`, until it signals or is cancelled after the last tick. */
  method WatchForRotation(ticks: seq<Tick>, bound: string, skip: set<string>) returns (signalled: Option<string>)
    ensures signalled == FirstSignal(ticks, bound, skip)
  {
    for i := 0 to |ticks|
      invariant FirstSignal(ticks, bound, skip) == FirstSignal(ticks[i..], bound, skip)
    {
      assert ticks[i..][1..] == ticks[i + 1..];
      if !ticks[i].Fetched? {
        continue;
      }
      var id := DetectRotatedCascade(ticks[i].summaries, bound);
      if id.None? || id.value in skip {
        continue;
      }
      return id;
    }
    signalled := None;
  }

  /** The tick detected nothing, or a cascade that failed before. */
  predicate Passed(t: Tick, bound: string, skip: set<string>) {
    t.Fetched? && Rotation(t.summaries, bound).Some? ==> Rotation(t.summaries, bound).value in skip
  }

  /** A signal is a detected cascade that never failed before; without one, every tick detected none or a failed one. */
  lemma {:induction false} SignalsExactly(ticks: seq<Tick>, bound: string, skip: set<string>)
    ensures match FirstSignal(ticks, bound, skip)
            case Some(id) =>
              id !in skip
              && exists k :: 0 <= k < |ticks| && ticks[k].Fetched? && Rotation(ticks[k].summaries, bound) == Some(id)
                             && forall j | 0 <= j < k :: Passed(ticks[j], bound, skip)
            case None =>
              forall k | 0 <= k < |ticks| :: Passed(ticks[k], bound, skip)
  {
    if ticks != [] {
      SignalsExactly(ticks[1..], bound, skip);
      assert forall k | 0 < k < |ticks| :: ticks[1..][k - 1] == ticks[k];
      if FirstSignal(ticks, bound, skip).Some? && Signal(ticks[0], bound, skip).None? {
        var k :| 0 <= k < |ticks| - 1 && ticks[1..][k].Fetched?
                 && Rotation(ticks[1..][k].summaries, bound) == FirstSignal(ticks, bound, skip)
                 && forall j | 0 <= j < k :: Passed(ticks[1..][j], bound, skip);
        assert ticks[k + 1] == ticks[1..][k];
      }
    }
  }
}
