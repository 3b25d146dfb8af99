/**
 What any number of completed replay passes keep, against an arbitrary
 transport that obeys the delivery contract: no conversation item that starts
 out replayable is ever committed twice.
 */
module DeadLetterSafety {
  import opened Wrappers
  import opened JsonValues
  import opened PostDelivery
  import opened RankedFates
  import opened DeadLetterReplay

  /** The two files and, per record, how often the server has committed it. */
  datatype World = World(backup: seq<Tracked>, current: seq<Tracked>, commits: map<nat, nat>)

  function Records(w: World): seq<Tracked> {
    w.backup + w.current
  }

  function CommitCount(commits: map<nat, nat>, id: nat): nat {
    if id in commits then commits[id] else 0
  }

  /** The server's counts after the records in `posted` were POSTed in turn. */
  function AfterPosts(commits: map<nat, nat>, posted: seq<Tracked>, outcomes: nat -> PostOutcome): map<nat, nat> {
    if posted == [] then commits
    else
      var n := |posted| - 1;
      var before := AfterPosts(commits, posted[..n], outcomes);
      before[posted[n].id := CommitCount(before, posted[n].id) + Commits(outcomes(n))]
  }

  function Next(w: World, c: Conditions): World {
    var p := ReplayPass(c, w.backup, w.current);
    World(p.backup, p.current, AfterPosts(w.commits, p.posted, c.outcomes))
  }

  function Run(w: World, passes: seq<Conditions>): World {
    if passes == [] then w else Next(Run(w, passes[..|passes| - 1]), passes[|passes| - 1])
  }

  /** Ids POSTed by a run, pass after pass. */
  function PostedIds(w: World, passes: seq<Conditions>): set<nat> {
    if passes == [] then {}
    else
      var before := Run(w, passes[..|passes| - 1]);
      PostedIds(w, passes[..|passes| - 1])
      + set t | t in ReplayPass(passes[|passes| - 1], before.backup, before.current).posted :: t.id
  }

  /**
   `items` are the ids of conversation items. Every one of them that could be
   replayed is uncommitted, and none is committed more than once.
   */
  ghost predicate Safe(w: World, items: set<nat>, codes: set<int>) {
    && DistinctIds(Records(w))
    && (forall t | t in Records(w) && t.id in items ::
          IsItem(t.entry) && (Replayable(t.entry, codes) ==> CommitCount(w.commits, t.id) == 0))
    && (forall id | id in items :: CommitCount(w.commits, id) <= 1)
  }

  ghost predicate Contract(c: Conditions, codes: set<int>) {
    c.codes == codes && forall k: nat :: Honest(c.outcomes(k))
  }

  // ----- one pass -----

  lemma {:induction false} NotPostedNotCommitted(commits: map<nat, nat>, posted: seq<Tracked>, outcomes: nat -> PostOutcome, id: nat)
    requires forall t | t in posted :: t.id != id
    ensures CommitCount(AfterPosts(commits, posted, outcomes), id) == CommitCount(commits, id)
  {
    if posted != [] {
      NotPostedNotCommitted(commits, posted[..|posted| - 1], outcomes, id);
    }
  }

  lemma {:induction false} PostedOnceCommittedOnce(commits: map<nat, nat>, posted: seq<Tracked>, outcomes: nat -> PostOutcome, j: nat)
    requires DistinctIds(posted) && j < |posted|
    ensures CommitCount(AfterPosts(commits, posted, outcomes), posted[j].id)
            == CommitCount(commits, posted[j].id) + Commits(outcomes(j))
  {
    var n := |posted| - 1;
    if j < n {
      PostedOnceCommittedOnce(commits, posted[..n], outcomes, j);
    } else {
      NotPostedNotCommitted(commits, posted[..n], outcomes, posted[n].id);
    }
  }

  /** The first `k` of the replayable records met their fate, everything else was left alone. */
  lemma SurvivorFrom(c: Conditions, items: seq<Tracked>, k: nat, t': Tracked) returns (t: Tracked, j: nat)
    requires t' in Survivors(items, c, 0, k) && k <= |Rep(items, c.codes)|
    ensures j <= |Rep(items, c.codes)| && t in items
    ensures j == |Rep(items, c.codes)| ==> t == t' && !Replayable(t.entry, c.codes)
    ensures j < |Rep(items, c.codes)| ==> Rep(items, c.codes)[j] == t && (j >= k ==> t == t')
    ensures j < k ==> t' in Fate(c.outcomes)(t, j)
  {
    j := ResultFrom(items, Test(c.codes), Fate(c.outcomes), 0, k, t');
    if j == |Rep(items, c.codes)| {
      t := t';
    } else {
      t := Rep(items, c.codes)[j];
      assert t in Rep(items, c.codes);
      SelectedFrom(items, Test(c.codes));
    }
  }

  lemma FateIs(c: Conditions, t: Tracked, n: nat, t': Tracked)
    requires t' in Fate(c.outcomes)(t, n)
    ensures var r := Repost(t.entry, c.outcomes(n)); !r.delivered && t' == Tracked(t.id, Reclassify(t.entry, r))
  {
  }

  /** Where a record that is there after a pass comes from. */
  lemma SurvivorOrigin(c: Conditions, w: World, t': Tracked) returns (t: Tracked, j: nat)
    requires t' in Records(Next(w, c))
    ensures var rep := Rep(Records(w), c.codes);
            var attempted := ReplayPass(c, w.backup, w.current).attempted;
            && t in Records(w) && t.id == t'.id && j <= |rep| && attempted <= |rep|
            && (if j == |rep| then t == t' && !Replayable(t.entry, c.codes)
                else
                  && rep[j] == t
                  && (j >= attempted ==> t == t')
                  && (j < attempted ==> var r := Repost(t.entry, c.outcomes(j));
                                        !r.delivered && t'.entry == Reclassify(t.entry, r)))
  {
    var k := PassLeaves(c, w);
    t, j := SurvivorFrom(c, Records(w), k, t');
    if j < k {
      FateIs(c, t, j, t');
    }
  }

  /** An attempt that leaves its record replayable has committed nothing. */
  lemma StillReplayableUncommitted(e: Json, o: PostOutcome, codes: set<int>)
    requires Replayable(e, codes) && IsItem(e) && Honest(o)
    requires !Repost(e, o).delivered && Replayable(Reclassify(e, Repost(e, o)), codes)
    ensures Commits(o) == 0
  {
    ReclassifyDecides(e, Repost(e, o), codes);
    if o.Raised? {
      ClassifierExact(o.error);
    }
  }

  /** Whatever honest outcome leaves the record replayable has committed nothing. */
  ghost predicate SafeToReplay(e: Json, codes: set<int>) {
    forall o: PostOutcome | Honest(o) && !Repost(e, o).delivered && Replayable(Reclassify(e, Repost(e, o)), codes) ::
      Commits(o) == 0
  }

  /** Exactly the conversation items among the replayable records are safe to replay. */
  lemma SafeExactlyForItems(e: Json, codes: set<int>)
    requires Replayable(e, codes)
    ensures SafeToReplay(e, codes) <==> IsItem(e)
  {
    if IsItem(e) {
      forall o: PostOutcome | Honest(o) && !Repost(e, o).delivered && Replayable(Reclassify(e, Repost(e, o)), codes)
        ensures Commits(o) == 0
      {
        StillReplayableUncommitted(e, o, codes);
      }
    } else {
      var lost := Raised(OtherTransportError("ReadTimeout"), true);
      ReclassifyDecides(e, Repost(e, lost), codes);
      assert Honest(lost) && Commits(lost) == 1;
    }
  }

  lemma PostedAt(c: Conditions, w: World)
    ensures var posted := ReplayPass(c, w.backup, w.current).posted;
            && |posted| == ReplayPass(c, w.backup, w.current).attempted <= |Rep(Records(w), c.codes)|
            && posted == Rep(Records(w), c.codes)[..|posted|]
            && (forall t | t in posted :: t in Records(w) && Replayable(t.entry, c.codes))
            && (DistinctIds(Records(w)) ==> DistinctIds(posted))
  {
    PassKeepsLists(c, w.backup, w.current);
    var posted := ReplayPass(c, w.backup, w.current).posted;
    forall t | t in posted
      ensures t in Records(w) && Replayable(t.entry, c.codes)
    {
      assert t in Rep(Records(w), c.codes);
      SelectedFrom(Records(w), Test(c.codes));
      assert Test(c.codes)(t);
    }
    if DistinctIds(Records(w)) {
      RepDistinct(Records(w), c.codes);
    }
  }

  /** What a pass adds to a record's commits: its own attempt's, if it was attempted. */
  lemma CommitsAfterPass(c: Conditions, w: World, t: Tracked, j: nat)
    requires DistinctIds(Records(w)) && t in Records(w) && j <= |Rep(Records(w), c.codes)|
    requires if j == |Rep(Records(w), c.codes)| then !Replayable(t.entry, c.codes) else Rep(Records(w), c.codes)[j] == t
    ensures CommitCount(Next(w, c).commits, t.id) == CommitCount(w.commits, t.id)
            + (if j < ReplayPass(c, w.backup, w.current).attempted then Commits(c.outcomes(j)) else 0)
  {
    PostedAt(c, w);
    var posted := ReplayPass(c, w.backup, w.current).posted;
    if j < |posted| {
      assert posted[j] == t;
      PostedOnceCommittedOnce(w.commits, posted, c.outcomes, j);
    } else {
      var rep := Rep(Records(w), c.codes);
      RepDistinct(Records(w), c.codes);
      forall s | s in posted ensures s.id != t.id {
        var i :| 0 <= i < |posted| && posted[i] == s;
        assert s == rep[i];
        if j < |rep| {
          assert rep[i].id != rep[j].id;
        } else {
          DistinctRecords(Records(w), s, t);
        }
      }
      NotPostedNotCommitted(w.commits, posted, c.outcomes, t.id);
    }
  }

  lemma SurvivorsDistinct(c: Conditions, w: World)
    requires DistinctIds(Records(w))
    ensures DistinctIds(Records(Next(w, c)))
  {
    var gone := DeliveredIds(ReplayPass(c, w.backup, w.current).posted, c);
    PassConserves(c, w.backup, w.current);
    WithoutAppend(w.backup, w.current, gone);
    WithoutDistinct(Records(w), gone);
    var left, after := WithoutIds(Records(w), gone), Records(Next(w, c));
    forall i | 0 <= i < |after| ensures |after| == |left| && after[i].id == left[i].id {
      assert i < |Next(w, c).backup| ==> after[i] == Next(w, c).backup[i];
    }
  }

  lemma {:induction false} WithoutDistinct(items: seq<Tracked>, gone: set<nat>)
    requires DistinctIds(items)
    ensures DistinctIds(WithoutIds(items, gone))
    ensures forall t | t in WithoutIds(items, gone) :: t in items
  {
    if items != [] {
      var init := items[..|items| - 1];
      WithoutDistinct(init, gone);
      forall j | 0 <= j < |WithoutIds(init, gone)| ensures WithoutIds(init, gone)[j].id != items[|items| - 1].id {
        assert WithoutIds(init, gone)[j] in init;
      }
    }
  }

  /** A completed pass keeps the invariant. */
  lemma PassKeepsSafe(c: Conditions, w: World, items: set<nat>, codes: set<int>)
    requires Safe(w, items, codes) && Contract(c, codes)
    ensures Safe(Next(w, c), items, codes)
  {
    var w' := Next(w, c);
    SurvivorsDistinct(c, w);
    forall t' | t' in Records(w') && t'.id in items
      ensures IsItem(t'.entry) && (Replayable(t'.entry, codes) ==> CommitCount(w'.commits, t'.id) == 0)
    {
      var t, j := SurvivorOrigin(c, w, t');
      CommitsAfterPass(c, w, t, j);
      if j < ReplayPass(c, w.backup, w.current).attempted {
        ReplayableRecord(c, w, t);
        ReclassifyDecides(t.entry, Repost(t.entry, c.outcomes(j)), codes);
        if Replayable(t'.entry, codes) {
          StillReplayableUncommitted(t.entry, c.outcomes(j), codes);
        }
      }
    }
    forall id | id in items
      ensures CommitCount(w'.commits, id) <= 1
    {
      CountStaysLow(c, w, items, codes, id);
    }
  }

  lemma ReplayableRecord(c: Conditions, w: World, t: Tracked)
    requires t in Rep(Records(w), c.codes)
    ensures Replayable(t.entry, c.codes)
  {
    SelectedFrom(Records(w), Test(c.codes));
  }

  lemma CountStaysLow(c: Conditions, w: World, items: set<nat>, codes: set<int>, id: nat)
    requires Safe(w, items, codes) && Contract(c, codes) && id in items
    ensures CommitCount(Next(w, c).commits, id) <= 1
  {
    PostedAt(c, w);
    var posted := ReplayPass(c, w.backup, w.current).posted;
    if j :| 0 <= j < |posted| && posted[j].id == id {
      PostedOnceCommittedOnce(w.commits, posted, c.outcomes, j);
      assert posted[j] in posted;
    } else {
      NotPostedNotCommitted(w.commits, posted, c.outcomes, id);
    }
  }

  // ----- any number of passes -----

  /** Over any number of completed passes every replayable item is uncommitted, and no item is committed twice. */
  lemma {:induction false} NoItemCommittedTwice(w: World, passes: seq<Conditions>, items: set<nat>, codes: set<int>)
    requires Safe(w, items, codes)
    requires forall c | c in passes :: Contract(c, codes)
    ensures Safe(Run(w, passes), items, codes)
  {
    if passes != [] {
      NoItemCommittedTwice(w, passes[..|passes| - 1], items, codes);
      PassKeepsSafe(passes[|passes| - 1], Run(w, passes[..|passes| - 1]), items, codes);
    }
  }

  /** An item whose attempt was ambiguous, or rejected with a permanent status, is kept and no longer replayable. */
  lemma FailedForGood(c: Conditions, w: World, j: nat) returns (t': Tracked)
    requires j < ReplayPass(c, w.backup, w.current).attempted <= |Rep(Records(w), c.codes)|
    requires GivesUp(Repost(Rep(Records(w), c.codes)[j].entry, c.outcomes(j)), c.codes)
    ensures t' in Records(Next(w, c)) && t'.id == Rep(Records(w), c.codes)[j].id && !Replayable(t'.entry, c.codes)
  {
    var t := Rep(Records(w), c.codes)[j];
    ReplayableRecord(c, w, t);
    ReclassifyDecides(t.entry, Repost(t.entry, c.outcomes(j)), c.codes);
    t' := Tracked(t.id, Reclassify(t.entry, Repost(t.entry, c.outcomes(j))));
    FailureIsKept(c, w, j, t');
  }

  /** The attempt was ambiguous or drew a permanent status. */
  predicate GivesUp(r: RepostResult, codes: set<int>) {
    !r.delivered && (r.ambiguous || (r.httpStatus.Some? && r.httpStatus.value !in codes))
  }

  // ----- what each outcome of an attempt leaves, by its status or error -----

  /** The outcome shows that nothing was committed and another attempt may do better. */
  predicate WorthAnotherTry(o: PostOutcome, item: bool, codes: set<int>) {
    match o
    case Responded(status) => status in codes
    case Raised(error, _) => !item || error in {HttpStatusError, ConnectError, ConnectTimeout, PoolTimeout}
  }

  lemma FateExactly(c: Conditions, t: Tracked, j: nat)
    requires Replayable(t.entry, c.codes)
    ensures var left := Fate(c.outcomes)(t, j);
            match c.outcomes(j)
            case Responded(status) =>
              if status < 400 then left == []
              else |left| == 1 && left[0].id == t.id && OnlyClassificationDiffers(t.entry, left[0].entry)
                   && (Replayable(left[0].entry, c.codes) <==> WorthAnotherTry(c.outcomes(j), IsItem(t.entry), c.codes))
            case Raised(_, _) =>
              |left| == 1 && left[0].id == t.id && OnlyClassificationDiffers(t.entry, left[0].entry)
              && (Replayable(left[0].entry, c.codes) <==> WorthAnotherTry(c.outcomes(j), IsItem(t.entry), c.codes))
  {
    ReclassifyDecides(t.entry, Repost(t.entry, c.outcomes(j)), c.codes);
  }

  /** What an outcome says of its record: whether it may be committed after all, and the status it drew, if any. */
  predicate Says(e: Json, o: PostOutcome, ambiguous: bool, status: Option<int>) {
    match o
    case Responded(st) => !ambiguous && status == Some(st)
    case Raised(error, _) => status.None? && (ambiguous <==> IsItem(e) && error.OtherTransportError?)
  }

  /** Python's comparison with an integer: `True` is 1 and `False` is 0. */
  predicate IsNumber(v: Json, n: int) {
    v == Num(n) || (n == 1 && v == Bool(true)) || (n == 0 && v == Bool(false))
  }

  /** The record says so already. */
  predicate SaysAlready(e: Json, ambiguous: bool, status: Option<int>) {
    && e.Dict? && "delivered_ambiguous" in e.fields
    && IsNumber(e.fields["delivered_ambiguous"], if ambiguous then 1 else 0)
    && (status.None? ==> "http_status" !in e.fields || e.fields["http_status"].Null?)
    && (status.Some? ==> "http_status" in e.fields && IsNumber(e.fields["http_status"], status.value))
  }

  lemma AsIntExactly(v: Json, n: int)
    ensures AsInt(v) == [n] <==> IsNumber(v, n)
  {
  }

  lemma SaysAlreadyExactly(e: Json, ambiguous: bool, status: Option<int>)
    requires e.Dict? && "delivered_ambiguous" in e.fields
    ensures SaysAlready(e, ambiguous, status) <==> SameClassification(e.fields, RepostResult(false, ambiguous, status))
  {
    AsIntExactly(Get(e.fields, "delivered_ambiguous"), if ambiguous then 1 else 0);
    if status.Some? {
      AsIntExactly(Get(e.fields, "http_status"), status.value);
    }
  }

  /** A record whose attempt failed is left as it is if it says so already, and is made to say so otherwise. */
  lemma LeftSayingSo(c: Conditions, t: Tracked, j: nat, ambiguous: bool, status: Option<int>)
    requires Replayable(t.entry, c.codes) && Says(t.entry, c.outcomes(j), ambiguous, status)
    requires c.outcomes(j).Responded? ==> c.outcomes(j).status >= 400
    ensures var number := if status.None? then Null else Num(status.value);
            Fate(c.outcomes)(t, j)
            == if SaysAlready(t.entry, ambiguous, status) then [t]
               else [Tracked(t.id, Dict(t.entry.fields["delivered_ambiguous" := Bool(ambiguous)]["http_status" := number]))]
  {
    assert Repost(t.entry, c.outcomes(j)) == RepostResult(false, ambiguous, status);
    SaysAlreadyExactly(t.entry, ambiguous, status);
  }

  /**
   The record of the j-th attempt is gone after the pass exactly when the server
   accepted it. If the server refused it, it is kept, and replayable exactly if
   the status is one to retry; if the attempt broke off, it is kept, and
   replayable exactly if it is no item or no request was sent.
   */
  lemma AttemptDecides(c: Conditions, w: World, j: nat)
    requires DistinctIds(Records(w))
    requires j < ReplayPass(c, w.backup, w.current).attempted <= |Rep(Records(w), c.codes)|
    ensures var t := Rep(Records(w), c.codes)[j];
            if c.outcomes(j).Responded? && c.outcomes(j).status < 400
            then forall t' | t' in Records(Next(w, c)) :: t'.id != t.id
            else
              exists t' :: && t' in Records(Next(w, c)) && t'.id == t.id && OnlyClassificationDiffers(t.entry, t'.entry)
                           && (Replayable(t'.entry, c.codes)
                               <==> WorthAnotherTry(c.outcomes(j), IsItem(t.entry), c.codes))
  {
    var t := Rep(Records(w), c.codes)[j];
    ReplayableRecord(c, w, t);
    FateExactly(c, t, j);
    if c.outcomes(j).Responded? && c.outcomes(j).status < 400 {
      forall t' | t' in Records(Next(w, c)) ensures t'.id != t.id {
        GoneWhenDelivered(c, w, j, t');
      }
    } else {
      var t' := Fate(c.outcomes)(t, j)[0];
      FailureIsKept(c, w, j, t');
    }
  }

  /** A record has one rank among the replayable ones. */
  lemma OneRank(items: seq<Tracked>, codes: set<int>, i: nat, j: nat)
    requires DistinctIds(items) && i < |Rep(items, codes)| && j < |Rep(items, codes)|
    requires Rep(items, codes)[i].id == Rep(items, codes)[j].id
    ensures i == j
  {
    RepDistinct(items, codes);
  }

  lemma RepIsRecord(items: seq<Tracked>, codes: set<int>, j: nat)
    requires j < |Rep(items, codes)|
    ensures Rep(items, codes)[j] in items && Replayable(Rep(items, codes)[j].entry, codes)
  {
    SelectedFrom(items, Test(codes));
    assert Rep(items, codes)[j] in Rep(items, codes);
  }

  lemma GoneWhenDelivered(c: Conditions, w: World, j: nat, t': Tracked)
    requires DistinctIds(Records(w)) && t' in Records(Next(w, c))
    requires j < ReplayPass(c, w.backup, w.current).attempted <= |Rep(Records(w), c.codes)|
    requires Fate(c.outcomes)(Rep(Records(w), c.codes)[j], j) == []
    ensures t'.id != Rep(Records(w), c.codes)[j].id
  {
    var k := PassLeaves(c, w);
    var s, i := SurvivorFrom(c, Records(w), k, t');
    if i < k {
      FateIs(c, s, i, t');
    }
    RepIsRecord(Records(w), c.codes, j);
    if i == |Rep(Records(w), c.codes)| {
      DistinctRecords(Records(w), s, Rep(Records(w), c.codes)[j]);
    } else if s.id == Rep(Records(w), c.codes)[j].id {
      OneRank(Records(w), c.codes, i, j);
    }
  }

  /** So a record that the server rejects for good, or an item whose response was lost, is never POSTed again. */
  lemma RejectedIsNeverPostedAgain(c: Conditions, w: World, j: nat, later: seq<Conditions>)
    requires DistinctIds(Records(w))
    requires j < ReplayPass(c, w.backup, w.current).attempted <= |Rep(Records(w), c.codes)|
    requires c.outcomes(j).Responded? ==> c.outcomes(j).status >= 400
    requires !WorthAnotherTry(c.outcomes(j), IsItem(Rep(Records(w), c.codes)[j].entry), c.codes)
    requires forall l | l in later :: l.codes == c.codes
    ensures Rep(Records(w), c.codes)[j].id !in PostedIds(Next(w, c), later)
  {
    var t := Rep(Records(w), c.codes)[j];
    AttemptDecides(c, w, j);
    var t' :| && t' in Records(Next(w, c)) && t'.id == t.id
              && (Replayable(t'.entry, c.codes) <==> WorthAnotherTry(c.outcomes(j), IsItem(t.entry), c.codes));
    SurvivorsDistinct(c, w);
    FrozenForever(Next(w, c), later, t', c.codes);
  }

  /** A record that may be replayed, field by field: routed, known not to be ambiguous, and not permanently refused. */
  predicate MayBeReplayed(e: Json, codes: set<int>) {
    && e.Dict?
    && {"session_id", "event_type", "payload", "delivered_ambiguous"} <= e.fields.Keys
    && e.fields["session_id"].Str? && e.fields["session_id"].s != ""
    && e.fields["event_type"].Str? && e.fields["event_type"].s != ""
    && e.fields["payload"].Dict?
    && e.fields["delivered_ambiguous"] in NOTHING
    && ("http_status" in e.fields ==>
          || e.fields["http_status"].Null?
          || (e.fields["http_status"].Num? && e.fields["http_status"].n in codes)
          || (e.fields["http_status"] == Bool(true) && 1 in codes)
          || (e.fields["http_status"] == Bool(false) && 0 in codes))
  }

  lemma ReplayableExactly(e: Json, codes: set<int>)
    ensures Replayable(e, codes) <==> MayBeReplayed(e, codes)
  {
    if e.Dict? {
      if "delivered_ambiguous" in e.fields {
        TruthyExactly(e.fields["delivered_ambiguous"]);
      }
      InCodesExactly(Get(e.fields, "http_status"), codes);
    }
  }

  lemma InCodesExactly(v: Json, codes: set<int>)
    ensures InCodes(v, codes)
            <==> (v.Num? && v.n in codes) || (v == Bool(true) && 1 in codes) || (v == Bool(false) && 0 in codes)
  {
    if v.Num? {
      assert v.n in AsInt(v);
    }
    if v.Bool? {
      assert (if v.b then 1 else 0) in AsInt(v);
    }
  }

  /** Without a cap or a deadline a pass POSTs every record that may be replayed, and in any case no other. */
  lemma PostsOnlyWhatMayBeReplayed(c: Conditions, w: World, t: Tracked)
    ensures t in ReplayPass(c, w.backup, w.current).posted ==> t in Records(w) && MayBeReplayed(t.entry, c.codes)
    ensures c.maxRecords.None? && c.deadlineSeconds.None? && t in Records(w) && MayBeReplayed(t.entry, c.codes)
            ==> t in ReplayPass(c, w.backup, w.current).posted
  {
    ReplayableExactly(t.entry, c.codes);
    PostedAt(c, w);
    if c.maxRecords.None? && c.deadlineSeconds.None? {
      PostsAllWithoutBudget(c, w);
      SelectedFrom(Records(w), Test(c.codes));
      assert Test(c.codes)(t) <==> Replayable(t.entry, c.codes);
    }
  }

  lemma PostsAllWithoutBudget(c: Conditions, w: World)
    requires c.maxRecords.None? && c.deadlineSeconds.None?
    ensures ReplayPass(c, w.backup, w.current).posted == Rep(Records(w), c.codes)
  {
    PassKeepsCounts(c, w.backup, w.current);
    PostedAt(c, w);
    assert !OverBudget(c, ReplayPass(c, w.backup, w.current).attempted);
  }

  lemma FailureIsKept(c: Conditions, w: World, j: nat, t': Tracked)
    requires j < ReplayPass(c, w.backup, w.current).attempted <= |Rep(Records(w), c.codes)|
    requires t' in Fate(c.outcomes)(Rep(Records(w), c.codes)[j], j)
    ensures t' in Records(Next(w, c))
  {
    var k := PassLeaves(c, w);
    FatesShow(Records(w), Test(c.codes), Fate(c.outcomes), 0, k, j, t');
  }

  lemma PassLeaves(c: Conditions, w: World) returns (k: nat)
    ensures k == ReplayPass(c, w.backup, w.current).attempted <= |Rep(Records(w), c.codes)|
    ensures Records(Next(w, c)) == Survivors(Records(w), c, 0, k)
  {
    PassKeepsLists(c, w.backup, w.current);
    k := ReplayPass(c, w.backup, w.current).attempted;
  }

  /** A record that is not replayable stays as it is and is never POSTed again, in any later pass. */
  lemma {:induction false} FrozenForever(w: World, passes: seq<Conditions>, t: Tracked, codes: set<int>)
    requires DistinctIds(Records(w)) && t in Records(w) && !Replayable(t.entry, codes)
    requires forall c | c in passes :: c.codes == codes
    ensures DistinctIds(Records(Run(w, passes)))
    ensures t in Records(Run(w, passes))
    ensures t.id !in PostedIds(w, passes)
  {
    if passes != [] {
      var c := passes[|passes| - 1];
      var before := Run(w, passes[..|passes| - 1]);
      FrozenForever(w, passes[..|passes| - 1], t, codes);
      SurvivorsDistinct(c, before);
      PassIs(c, before.backup, before.current);
      UnselectedStay(Records(before), Test(c.codes), Fate(c.outcomes), 0,
                     ReplayPass(c, before.backup, before.current).attempted, t);
      PostedAt(c, before);
      forall s | s in ReplayPass(c, before.backup, before.current).posted ensures s.id != t.id {
        DistinctRecords(Records(before), s, t);
      }
    }
  }

  /**
   Only conversation items are protected: another event whose response is lost
   stays replayable although it was committed, and a second pass commits it again.
   */
  lemma OtherEventsMayBeCommittedTwice(w: World, lost: Conditions, back: Conditions)
    requires w.current == [] && |w.backup| == 1 && w.commits == map[]
    requires Replayable(w.backup[0].entry, lost.codes) && !IsItem(w.backup[0].entry)
    requires lost.maxRecords.None? && lost.deadlineSeconds.None?
    requires lost.outcomes(0) == Raised(OtherTransportError("ReadTimeout"), true)
    requires back.codes == lost.codes && back.maxRecords.None? && back.deadlineSeconds.None?
    requires back.outcomes(0) == Responded(200)
    ensures CommitCount(Run(w, [lost, back]).commits, w.backup[0].id) == 2
  {
    var t := w.backup[0];
    var r := Repost(t.entry, lost.outcomes(0));
    ReclassifyDecides(t.entry, r, lost.codes);
    var t' := Tracked(t.id, Reclassify(t.entry, r));
    OneRecordPass(lost, w, t);
    var w1 := Next(w, lost);
    OneRecordPass(back, w1, t');
    var passes := [lost, back];
    assert passes[..1] == [lost] && [lost][..0] == [];
    assert Run(w, [lost]) == Next(Run(w, []), lost);
  }

  lemma OneRecordPass(c: Conditions, w: World, t: Tracked)
    requires w.backup == [t] && w.current == [] && Replayable(t.entry, c.codes)
    requires c.maxRecords.None? && c.deadlineSeconds.None?
    ensures var r := Repost(t.entry, c.outcomes(0));
            Next(w, c) == World(if r.delivered then [] else [Tracked(t.id, Reclassify(t.entry, r))], [],
                                w.commits[t.id := CommitCount(w.commits, t.id) + Commits(c.outcomes(0))])
  {
    assert [t][..0] == [];
    assert AfterPosts(w.commits, [t], c.outcomes)
           == w.commits[t.id := CommitCount(w.commits, t.id) + Commits(c.outcomes(0))];
    assert START.posted + [t] == [t];
    assert DrainFile(c, START, [t]) == StepEntry(c, DrainFile(c, START, []), t);
  }
}
