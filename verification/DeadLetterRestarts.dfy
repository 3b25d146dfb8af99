/**
 The dead-letter files across restarts: each start reads them back from text,
 what it POSTs and what it leaves is what the passes over identified records
 POST and leave, and so the server's commits can be counted per record.
 */
module DeadLetterRestarts {
  import opened JsonValues
  import opened PostDelivery
  import opened DeadLetterText
  import opened DeadLetterReplay
  import opened DeadLetterSafety
  import opened DeadLetterStore

  /** What one completed replay leaves of the two files. */
  function Restart(codec: Codec, c: Conditions, f: Files): Files {
    var p := PassOver(codec, c, f.backup, f.current);
    Files(After(codec, f.backup, p.backupChanged, p.backup), After(codec, f.current, p.currentChanged, p.current))
  }

  function Restarts(codec: Codec, passes: seq<Conditions>, f: Files): Files {
    if passes == [] then f else Restart(codec, passes[|passes| - 1], Restarts(codec, passes[..|passes| - 1], f))
  }

  datatype Post = Post(entry: Json, outcome: PostOutcome)

  function PostsOf(posted: seq<Tracked>, outcomes: nat -> PostOutcome): seq<Post> {
    seq(|posted|, j requires 0 <= j < |posted| => Post(posted[j].entry, outcomes(j)))
  }

  /** Everything the restarts POST, in order, with what the transport made of it. */
  function Log(codec: Codec, passes: seq<Conditions>, f: Files): seq<Post> {
    if passes == [] then []
    else
      var init, c := passes[..|passes| - 1], passes[|passes| - 1];
      var before := Restarts(codec, init, f);
      Log(codec, init, f) + PostsOf(PassOver(codec, c, before.backup, before.current).posted, c.outcomes)
  }

  // ----- a pass does not look at identities -----

  predicate Alike(d: Drain, e: Drain) {
    && Entries(d.retained) == Entries(e.retained)
    && Entries(d.posted) == Entries(e.posted)
    && e.(retained := d.retained, posted := d.posted) == d
  }

  lemma EntriesAppend(a: seq<Tracked>, b: seq<Tracked>)
    ensures Entries(a + b) == Entries(a) + Entries(b)
  {
  }

  lemma StepIgnoresIds(c: Conditions, d: Drain, e: Drain, t: Tracked, u: Tracked)
    requires Alike(d, e) && t.entry == u.entry
    ensures Alike(StepEntry(c, d, t), StepEntry(c, e, u))
  {
    var r := Repost(t.entry, c.outcomes(d.attempted));
    EntriesAppend(d.retained, [t]);
    EntriesAppend(e.retained, [u]);
    EntriesAppend(d.posted, [t]);
    EntriesAppend(e.posted, [u]);
    EntriesAppend(d.retained, [Tracked(t.id, Reclassify(t.entry, r))]);
    EntriesAppend(e.retained, [Tracked(u.id, Reclassify(u.entry, r))]);
    assert Entries([t]) == [t.entry] == Entries([u]);
    assert Entries([Tracked(t.id, Reclassify(t.entry, r))]) == Entries([Tracked(u.id, Reclassify(u.entry, r))]);
  }

  lemma {:induction false} DrainIgnoresIds(c: Conditions, d: Drain, e: Drain, items: seq<Tracked>, others: seq<Tracked>)
    requires Alike(d, e) && Entries(items) == Entries(others)
    ensures Alike(DrainFile(c, d, items), DrainFile(c, e, others))
  {
    assert |items| == |Entries(items)| == |Entries(others)| == |others|;
    if items != [] {
      var n := |items| - 1;
      assert Entries(items[..n]) == Entries(items)[..n] == Entries(others)[..n] == Entries(others[..n]);
      DrainIgnoresIds(c, d, e, items[..n], others[..n]);
      assert items[n].entry == Entries(items)[n] == Entries(others)[n] == others[n].entry;
      StepIgnoresIds(c, DrainFile(c, d, items[..n]), DrainFile(c, e, others[..n]), items[n], others[n]);
    }
  }

  lemma PassIgnoresIds(c: Conditions, backup: seq<Tracked>, current: seq<Tracked>, backup': seq<Tracked>, current': seq<Tracked>)
    requires Entries(backup) == Entries(backup') && Entries(current) == Entries(current')
    ensures var p, q := ReplayPass(c, backup, current), ReplayPass(c, backup', current');
            && Entries(p.backup) == Entries(q.backup) && p.backupChanged == q.backupChanged
            && Entries(p.current) == Entries(q.current) && p.currentChanged == q.currentChanged
            && Entries(p.posted) == Entries(q.posted) && p.attempted == q.attempted && p.replayed == q.replayed
  {
    var d, e := DrainFile(c, START, backup), DrainFile(c, START, backup');
    DrainIgnoresIds(c, START, START, backup, backup');
    DrainIgnoresIds(c, d.(retained := [], changed := false), e.(retained := [], changed := false), current, current');
  }

  // ----- the files hold the records -----

  /** The files read as the records, and every record survives being written and read. */
  ghost predicate Hold(codec: Codec, f: Files, w: World) {
    && ReadFile(codec, f.backup) == Entries(w.backup) && AllStable(codec, w.backup)
    && ReadFile(codec, f.current) == Entries(w.current) && AllStable(codec, w.current)
  }

  lemma RestartHolds(codec: Codec, c: Conditions, f: Files, w: World)
    requires Lawful(codec) && Hold(codec, f, w)
    ensures Hold(codec, Restart(codec, c, f), Next(w, c))
    ensures Entries(PassOver(codec, c, f.backup, f.current).posted) == Entries(ReplayPass(c, w.backup, w.current).posted)
  {
    var older := Label(ReadFile(codec, f.backup), 0);
    var newer := Label(ReadFile(codec, f.current), |older|);
    assert Entries(older) == Entries(w.backup) && Entries(newer) == Entries(w.current);
    PassIgnoresIds(c, older, newer, w.backup, w.current);
    PassKeepsLists(c, w.backup, w.current);
    StablePass(codec, c, w.backup, w.current);
    EntriesRoundTrip(codec, Next(w, c).backup);
    EntriesRoundTrip(codec, Next(w, c).current);
  }

  lemma {:induction false} RestartsHold(codec: Codec, passes: seq<Conditions>, f: Files, w: World)
    requires Lawful(codec) && Hold(codec, f, w)
    ensures Hold(codec, Restarts(codec, passes, f), Run(w, passes))
  {
    if passes != [] {
      var init, c := passes[..|passes| - 1], passes[|passes| - 1];
      RestartsHold(codec, init, f, w);
      RestartHolds(codec, c, Restarts(codec, init, f), Run(w, init));
    }
  }

  // ----- who was POSTed -----

  function Ids(items: seq<Tracked>): seq<nat> {
    seq(|items|, i requires 0 <= i < |items| => items[i].id)
  }

  /** The record behind each POST of a run, pass after pass. */
  function Authors(w: World, passes: seq<Conditions>): seq<nat> {
    if passes == [] then []
    else
      var init, c := passes[..|passes| - 1], passes[|passes| - 1];
      var before := Run(w, init);
      Authors(w, init) + Ids(ReplayPass(c, before.backup, before.current).posted)
  }

  /** How often the POSTs attributed to a record committed. */
  function CommitsFor(log: seq<Post>, authors: seq<nat>, id: nat): nat
    requires |log| == |authors|
  {
    if log == [] then 0
    else
      var n := |log| - 1;
      CommitsFor(log[..n], authors[..n], id) + (if authors[n] == id then Commits(log[n].outcome) else 0)
  }

  lemma {:induction false} CommitsForConcat(a: seq<Post>, x: seq<nat>, b: seq<Post>, y: seq<nat>, id: nat)
    requires |a| == |x| && |b| == |y|
    ensures CommitsFor(a + b, x + y, id) == CommitsFor(a, x, id) + CommitsFor(b, y, id)
  {
    if b == [] {
      assert a + b == a && x + y == x;
    } else {
      var n := |b| - 1;
      assert (a + b)[..|a| + n] == a + b[..n] && (x + y)[..|a| + n] == x + y[..n];
      CommitsForConcat(a, x, b[..n], y[..n], id);
    }
  }

  lemma CommitsForSnoc(log: seq<Post>, authors: seq<nat>, post: Post, author: nat, id: nat)
    requires |log| == |authors|
    ensures CommitsFor(log + [post], authors + [author], id)
            == CommitsFor(log, authors, id) + (if author == id then Commits(post.outcome) else 0)
  {
    assert (log + [post])[..|log|] == log && (authors + [author])[..|log|] == authors;
  }

  lemma PostsSnoc(posted: seq<Tracked>, outcomes: nat -> PostOutcome)
    requires posted != []
    ensures var n := |posted| - 1;
            && PostsOf(posted, outcomes) == PostsOf(posted[..n], outcomes) + [Post(posted[n].entry, outcomes(n))]
            && Ids(posted) == Ids(posted[..n]) + [posted[n].id]
  {
  }

  /** The server's count of a record is what it was plus what the POSTs of that record committed. */
  lemma {:induction false} CountedByPosts(commits: map<nat, nat>, posted: seq<Tracked>, outcomes: nat -> PostOutcome, id: nat)
    ensures CommitCount(AfterPosts(commits, posted, outcomes), id)
            == CommitCount(commits, id) + CommitsFor(PostsOf(posted, outcomes), Ids(posted), id)
  {
    if posted != [] {
      var n := |posted| - 1;
      CountedByPosts(commits, posted[..n], outcomes, id);
      PostsSnoc(posted, outcomes);
      CommitsForSnoc(PostsOf(posted[..n], outcomes), Ids(posted[..n]), Post(posted[n].entry, outcomes(n)), posted[n].id, id);
    }
  }

  lemma SameEntriesSamePosts(a: seq<Tracked>, b: seq<Tracked>, outcomes: nat -> PostOutcome)
    requires Entries(a) == Entries(b)
    ensures PostsOf(a, outcomes) == PostsOf(b, outcomes)
  {
    assert |a| == |Entries(a)| == |Entries(b)| == |b|;
    forall j | 0 <= j < |a| ensures a[j].entry == b[j].entry {
      assert Entries(a)[j] == Entries(b)[j];
    }
  }

  /** What a further restart POSTs is what the pass over the records POSTs. */
  lemma LogSnoc(codec: Codec, passes: seq<Conditions>, f: Files, w: World) returns (posted: seq<Tracked>)
    requires Lawful(codec) && Hold(codec, f, w) && passes != []
    ensures var init, c := passes[..|passes| - 1], passes[|passes| - 1];
            && posted == ReplayPass(c, Run(w, init).backup, Run(w, init).current).posted
            && Log(codec, passes, f) == Log(codec, init, f) + PostsOf(posted, c.outcomes)
            && Authors(w, passes) == Authors(w, init) + Ids(posted)
  {
    var init, c := passes[..|passes| - 1], passes[|passes| - 1];
    var before, files := Run(w, init), Restarts(codec, init, f);
    posted := ReplayPass(c, before.backup, before.current).posted;
    RestartsHold(codec, init, f, w);
    RestartHolds(codec, c, files, before);
    SameEntriesSamePosts(PassOver(codec, c, files.backup, files.current).posted, posted, c.outcomes);
  }

  lemma {:induction false} EveryPostAttributed(codec: Codec, passes: seq<Conditions>, f: Files, w: World)
    requires Lawful(codec) && Hold(codec, f, w)
    ensures |Log(codec, passes, f)| == |Authors(w, passes)|
  {
    if passes != [] {
      EveryPostAttributed(codec, passes[..|passes| - 1], f, w);
      var posted := LogSnoc(codec, passes, f, w);
    }
  }

  /** What the restarts POST is what accounts for the counts of the run over identified records. */
  lemma {:induction false} LogAccountsForCommits(codec: Codec, passes: seq<Conditions>, f: Files, w: World, id: nat)
    requires Lawful(codec) && Hold(codec, f, w)
    ensures |Log(codec, passes, f)| == |Authors(w, passes)|
    ensures CommitCount(Run(w, passes).commits, id)
            == CommitCount(w.commits, id) + CommitsFor(Log(codec, passes, f), Authors(w, passes), id)
  {
    EveryPostAttributed(codec, passes, f, w);
    if passes != [] {
      var init, c := passes[..|passes| - 1], passes[|passes| - 1];
      LogAccountsForCommits(codec, init, f, w, id);
      var posted := LogSnoc(codec, passes, f, w);
      CountedByPosts(Run(w, init).commits, posted, c.outcomes, id);
      CommitsForConcat(Log(codec, init, f), Authors(w, init), PostsOf(posted, c.outcomes), Ids(posted), id);
    }
  }

  /** A record after any number of passes is one from before them, changed at most in its classification. */
  lemma {:induction false} SameRecord(w: World, passes: seq<Conditions>, t': Tracked) returns (t: Tracked)
    requires t' in Records(Run(w, passes))
    ensures t in Records(w) && t.id == t'.id && OnlyClassificationDiffers(t.entry, t'.entry)
  {
    if passes == [] {
      t := t';
    } else {
      var c, before := passes[|passes| - 1], Run(w, passes[..|passes| - 1]);
      var mid, j := SurvivorOrigin(c, before, t');
      if mid != t' {
        ReplayableRecord(c, before, mid);
        ReclassifyDecides(mid.entry, Repost(mid.entry, c.outcomes(j)), c.codes);
      }
      t := SameRecord(w, passes[..|passes| - 1], mid);
      DifferenceAdds(t.entry, mid.entry, t'.entry);
    }
  }

  lemma DifferenceAdds(a: Json, b: Json, c: Json)
    requires OnlyClassificationDiffers(a, b) && OnlyClassificationDiffers(b, c)
    ensures OnlyClassificationDiffers(a, c)
  {
  }

  /** The POST at `k` sends the record it is attributed to, up to its classification. */
  ghost predicate Sends(w: World, log: seq<Post>, authors: seq<nat>, k: nat)
    requires k < |log| == |authors|
  {
    exists t :: t in Records(w) && t.id == authors[k] && OnlyClassificationDiffers(t.entry, log[k].entry)
  }

  lemma SendsAcross(w: World, a: seq<Post>, x: seq<nat>, b: seq<Post>, y: seq<nat>, k: nat)
    requires |a| == |x| && |b| == |y| && k < |a + b|
    requires if k < |a| then Sends(w, a, x, k) else Sends(w, b, y, k - |a|)
    ensures Sends(w, a + b, x + y, k)
  {
    var t :| t in Records(w) && t.id == (x + y)[k] && OnlyClassificationDiffers(t.entry, (a + b)[k].entry);
  }

  lemma PassSends(c: Conditions, w: World, passes: seq<Conditions>, j: nat)
    requires var before := Run(w, passes); j < |ReplayPass(c, before.backup, before.current).posted|
    ensures var before := Run(w, passes);
            var posted := ReplayPass(c, before.backup, before.current).posted;
            Sends(w, PostsOf(posted, c.outcomes), Ids(posted), j)
  {
    var before := Run(w, passes);
    PostedAt(c, before);
    var t' := ReplayPass(c, before.backup, before.current).posted[j];
    assert t' in ReplayPass(c, before.backup, before.current).posted;
    var t := SameRecord(w, passes, t');
  }

  lemma {:induction false} LogSends(codec: Codec, passes: seq<Conditions>, f: Files, w: World, k: nat)
    requires Lawful(codec) && Hold(codec, f, w)
    requires k < |Log(codec, passes, f)|
    ensures |Log(codec, passes, f)| == |Authors(w, passes)|
    ensures Sends(w, Log(codec, passes, f), Authors(w, passes), k)
  {
    var init, c := passes[..|passes| - 1], passes[|passes| - 1];
    EveryPostAttributed(codec, passes, f, w);
    EveryPostAttributed(codec, init, f, w);
    var posted := LogSnoc(codec, passes, f, w);
    if k < |Log(codec, init, f)| {
      LogSends(codec, init, f, w, k);
    } else {
      PassSends(c, w, init, k - |Log(codec, init, f)|);
    }
    SendsAcross(w, Log(codec, init, f), Authors(w, init), PostsOf(posted, c.outcomes), Ids(posted), k);
  }

  /** The records of two files, numbered in reading order. */
  function Loaded(codec: Codec, f: Files, commits: map<nat, nat>): World {
    var older := Label(ReadFile(codec, f.backup), 0);
    World(older, Label(ReadFile(codec, f.current), |older|), commits)
  }

  /**
   Over any number of completed restarts, reading the files from text each
   time: every POST made sends one of the records the files held at the start;
   all POSTs of a conversation item together, and what the server had, come to
   at most one commit; and the files end up reading as the records of a world
   in which every replayable item is still uncommitted.
   */
  lemma ItemsCommittedOnceAcrossRestarts(codec: Codec, passes: seq<Conditions>, f: Files, commits: map<nat, nat>,
                                         items: set<nat>, codes: set<int>)
    requires Lawful(codec) && Survivable(codec, f.backup) && Survivable(codec, f.current)
    requires Safe(Loaded(codec, f, commits), items, codes)
    requires forall c | c in passes :: Contract(c, codes)
    ensures var w0, log := Loaded(codec, f, commits), Log(codec, passes, f);
            var w, f', authors := Run(w0, passes), Restarts(codec, passes, f), Authors(w0, passes);
            && |log| == |authors|
            && (forall k: nat | k < |log| :: Sends(w0, log, authors, k))
            && (forall id | id in items :: CommitCount(commits, id) + CommitsFor(log, authors, id) <= 1)
            && Safe(w, items, codes)
            && ReadFile(codec, f'.backup) == Entries(w.backup)
            && ReadFile(codec, f'.current) == Entries(w.current)
  {
    var w0, log := Loaded(codec, f, commits), Log(codec, passes, f);
    LabelledStable(codec, f.backup, 0);
    LabelledStable(codec, f.current, |w0.backup|);
    NoItemCommittedTwice(w0, passes, items, codes);
    RestartsHold(codec, passes, f, w0);
    EveryPostAttributed(codec, passes, f, w0);
    forall k: nat | k < |log| ensures Sends(w0, log, Authors(w0, passes), k) {
      LogSends(codec, passes, f, w0, k);
    }
    forall id | id in items ensures CommitCount(commits, id) + CommitsFor(log, Authors(w0, passes), id) <= 1 {
      LogAccountsForCommits(codec, passes, f, w0, id);
    }
  }
}
