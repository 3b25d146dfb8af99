/**
 The life of one bridge directory: a sender whose call fails for good appends
 the event to the dead-letter files, which rotate, and every start replays what
 the files hold (omnicraft/codex_native_forwarder.py, `_post_session_event` and
 `_replay_dead_letters_on_startup`, over the shared delivery module).
 */
module DeadLetterLife {
  import opened Wrappers
  import opened JsonValues
  import opened PostDelivery
  import opened DeadLetterText
  import opened DeadLetterReplay
  import opened DeadLetterSafety
  import opened DeadLetterStore
  import opened DeadLetterRestarts

  const POST_MAX_ATTEMPTS := 3
  const RETRY_STATUS_CODES := {408, 409, 425, 429, 500, 502, 503, 504}
  const DEAD_LETTER_EVENT_TYPES := {ITEM_EVENT, "external_session_usage"}

  /** An event to be posted; `reason` is what a record of its failure would say. */
  datatype Forward = Forward(ts: int, sessionId: string, eventType: string, payload: map<string, Json>, reason: string)

  function NameOf(e: HttpError): string {
    match e
    case HttpStatusError => "HTTPStatusError"
    case ConnectError => "ConnectError"
    case ConnectTimeout => "ConnectTimeout"
    case PoolTimeout => "PoolTimeout"
    case OtherTransportError(name) => name
  }

  /** The record of a forward, classified by the last attempt of its call. */
  function RecordFor(f: Forward, last: PostOutcome): Drop {
    match last
    case Responded(status) =>
      Drop(f.ts, f.sessionId, f.eventType, f.payload, f.reason, false, Some(status), None)
    case Raised(error, _) =>
      Drop(f.ts, f.sessionId, f.eventType, f.payload, f.reason,
           f.eventType == ITEM_EVENT && MayHaveBeenDelivered(error), None, Some(NameOf(error)))
  }

  /** What happens to a directory: a forward's call, `attempts` POSTs long, or a start of the forwarder. */
  datatype Event =
    | Sent(forward: Forward, script: nat -> PostOutcome, attempts: nat, fault: AppendFault)
    | Started(conditions: Conditions)

  /** The delivery contract holds, and a call makes the attempts that the retry loop makes. */
  ghost predicate Fair(e: Event) {
    match e
    case Sent(f, script, attempts, _) =>
      HonestScript(script)
      && IsCall(script, 0, attempts, f.eventType == ITEM_EVENT, POST_MAX_ATTEMPTS, RETRY_STATUS_CODES)
    case Started(c) => Contract(c, RETRY_STATUS_CODES)
  }

  /**
   The files, the records in them with the server's counts, the record of every
   forward so far, and every POST so far with the number of its forward.
   */
  datatype Life = Life(files: Files, world: World, forwards: seq<Json>, log: seq<Post>, authors: seq<nat>)

  const BIRTH := Life(Files(None, None), World([], [], map[]), [], [], [])

  function Posts(record: Json, script: nat -> PostOutcome, n: nat): seq<Post> {
    if n == 0 then [] else Posts(record, script, n - 1) + [Post(record, script(n - 1))]
  }

  function Repeat(id: nat, n: nat): seq<nat> {
    if n == 0 then [] else Repeat(id, n - 1) + [id]
  }

  /** The records of the files after an append. */
  function WithRecord(f: Files, w: World, t: Tracked, fault: AppendFault): World {
    match fault
    case BeforeRotation => w
    case AfterRotation => Rotated(f, w)
    case NoFault => var r := Rotated(f, w); r.(current := r.current + [t])
  }

  function Rotated(f: Files, w: World): World {
    if |TextOf(f.current)| >= MAX_BYTES then w.(backup := w.current, current := []) else w
  }

  /** The forward's own POSTs. */
  function Posted(l: Life, record: Json, script: nat -> PostOutcome, attempts: nat): Life {
    var id := |l.forwards|;
    l.(world := l.world.(commits := l.world.commits[id := TotalCommits(script, 0, attempts)]),
       forwards := l.forwards + [record],
       log := l.log + Posts(record, script, attempts),
       authors := l.authors + Repeat(id, attempts))
  }

  /** The record appended to the files. */
  function Recorded(codec: Codec, l: Life, t: Tracked, fault: AppendFault): Life {
    l.(files := AfterAppend(codec, l.files, t.entry, fault), world := WithRecord(l.files, l.world, t, fault))
  }

  function Forwarded(codec: Codec, l: Life, f: Forward, script: nat -> PostOutcome, attempts: nat, fault: AppendFault)
    : Life
    requires attempts > 0
  {
    var last := script(attempts - 1);
    var drop := RecordFor(f, last);
    var l' := Posted(l, RecordOf(drop), script, attempts);
    if IsDelivery(last) || f.eventType !in DEAD_LETTER_EVENT_TYPES then l'
    else Recorded(codec, l', Tracked(|l.forwards|, RecordOf(drop)), fault)
  }

  /** What is POSTed comes from the text of the files; the records say which forward it was. */
  function Replayed(codec: Codec, l: Life, c: Conditions): Life {
    l.(files := Restart(codec, c, l.files),
       world := Next(l.world, c),
       log := l.log + PostsOf(PassOver(codec, c, l.files.backup, l.files.current).posted, c.outcomes),
       authors := l.authors + Ids(ReplayPass(c, l.world.backup, l.world.current).posted))
  }

  function Live(codec: Codec, events: seq<Event>): Life {
    if events == [] then BIRTH
    else
      var before := Live(codec, events[..|events| - 1]);
      match events[|events| - 1]
      case Sent(f, script, attempts, fault) =>
        if attempts == 0 then before else Forwarded(codec, before, f, script, attempts, fault)
      case Started(c) => Replayed(codec, before, c)
  }

  function Items(forwards: seq<Json>): set<nat> {
    set i: nat | i < |forwards| && IsItem(forwards[i])
  }

  // ----- what every event keeps -----

  /** Text that ends its last line, so that an append starts a line of its own. */
  ghost predicate Ended(file: Option<string>) {
    var text := TextOf(file); text != "" ==> text[|text| - 1] == '\n'
  }

  /** The files hold the records of the world, each one a forward's. */
  ghost predicate FilesHold(codec: Codec, l: Life) {
    && Hold(codec, l.files, l.world)
    && Ended(l.files.backup) && Ended(l.files.current)
    && forall t | t in Records(l.world) :: t.id < |l.forwards| && OnlyClassificationDiffers(l.forwards[t.id], t.entry)
  }

  /** Every POST is of a forward, and the POSTs account for the server's counts. */
  ghost predicate LogHolds(l: Life) {
    && |l.log| == |l.authors|
    && (forall k | 0 <= k < |l.log| ::
          l.authors[k] < |l.forwards| && OnlyClassificationDiffers(l.forwards[l.authors[k]], l.log[k].entry))
    && (forall id: nat :: CommitCount(l.world.commits, id) == CommitsFor(l.log, l.authors, id))
  }

  ghost predicate Sound(codec: Codec, l: Life) {
    && FilesHold(codec, l)
    && LogHolds(l)
    && Safe(l.world, Items(l.forwards), RETRY_STATUS_CODES)
  }

  // ----- a forward's own POSTs -----

  lemma {:induction false} PostsAre(record: Json, script: nat -> PostOutcome, n: nat, id: nat)
    ensures |Posts(record, script, n)| == |Repeat(id, n)| == n
    ensures forall k | 0 <= k < n :: Posts(record, script, n)[k].entry == record && Repeat(id, n)[k] == id
  {
    if n > 0 {
      PostsAre(record, script, n - 1, id);
    }
  }

  lemma {:induction false} PostsCommit(record: Json, script: nat -> PostOutcome, n: nat, id: nat, other: nat)
    requires |Posts(record, script, n)| == |Repeat(id, n)|
    ensures CommitsFor(Posts(record, script, n), Repeat(id, n), other)
            == if other == id then TotalCommits(script, 0, n) else 0
  {
    if n > 0 {
      PostsCommit(record, script, n - 1, id, other);
      CommitsForSnoc(Posts(record, script, n - 1), Repeat(id, n - 1), Post(record, script(n - 1)), id, other);
    }
  }

  lemma {:induction false} NoPostsNoCommits(log: seq<Post>, authors: seq<nat>, id: nat)
    requires |log| == |authors| && id !in authors
    ensures CommitsFor(log, authors, id) == 0
  {
    if log != [] {
      NoPostsNoCommits(log[..|log| - 1], authors[..|log| - 1], id);
    }
  }

  lemma PostedLog(l: Life, record: Json, script: nat -> PostOutcome, attempts: nat)
    requires LogHolds(l)
    ensures LogHolds(Posted(l, record, script, attempts))
  {
    var l', next := Posted(l, record, script, attempts), |l.forwards|;
    PostsAre(record, script, attempts, next);
    forall id: nat ensures CommitCount(l'.world.commits, id) == CommitsFor(l'.log, l'.authors, id) {
      PostsCommit(record, script, attempts, next, id);
      CommitsForConcat(l.log, l.authors, Posts(record, script, attempts), Repeat(next, attempts), id);
      if id == next {
        NoPostsNoCommits(l.log, l.authors, next);
      }
    }
  }

  /** A forward is committed at most once by its own call if it is an item. */
  lemma PostedSafe(l: Life, record: Json, script: nat -> PostOutcome, attempts: nat)
    requires Safe(l.world, Items(l.forwards), RETRY_STATUS_CODES)
    requires forall t | t in Records(l.world) :: t.id < |l.forwards|
    requires IsItem(record) ==> TotalCommits(script, 0, attempts) <= 1
    ensures var l' := Posted(l, record, script, attempts); Safe(l'.world, Items(l'.forwards), RETRY_STATUS_CODES)
  {
    var l', next := Posted(l, record, script, attempts), |l.forwards|;
    assert forall i: nat | i < next :: l'.forwards[i] == l.forwards[i];
    assert Records(l'.world) == Records(l.world);
    forall id | id in Items(l'.forwards) ensures CommitCount(l'.world.commits, id) <= 1 {
      assert id == next || id in Items(l.forwards);
    }
  }

  // ----- an append -----

  /** What is read of ended text and more is what is read of each. */
  lemma ReadsInTurn(codec: Codec, text: string, more: string)
    requires Ended(Some(text))
    ensures ReadText(codec, text + more) == ReadText(codec, text) + ReadText(codec, more)
  {
    if text == "" {
      NothingReadFirst(codec, more);
    } else {
      ReadAcrossBreak(codec, text[..|text| - 1], more);
      assert text == text[..|text| - 1] + "\n";
    }
  }

  lemma NothingReadFirst(codec: Codec, more: string)
    ensures "" + more == more && ReadText(codec, "") + ReadText(codec, more) == ReadText(codec, more)
  {
    assert ReadText(codec, "") == [];
  }

  lemma LineAppended(codec: Codec, text: string, line: string, r: Json)
    requires Ended(Some(text)) && ReadText(codec, line + "\n") == [r]
    ensures ReadText(codec, text + line + "\n") == ReadText(codec, text) + [r]
  {
    assert text + line + "\n" == text + (line + "\n");
    ReadsInTurn(codec, text, line + "\n");
  }

  lemma AppendReads(codec: Codec, file: Option<string>, r: Json)
    requires Lawful(codec) && r.Dict? && Ended(file)
    ensures var after := Some(TextOf(file) + codec.print_(r) + "\n");
            Ended(after) && ReadFile(codec, after) == ReadFile(codec, file) + [r]
  {
    ValuesAreStable(codec, r);
    LineAppended(codec, TextOf(file), codec.print_(r), r);
  }

  lemma RotateHolds(codec: Codec, f: Files, w: World)
    requires Hold(codec, f, w) && Ended(f.backup) && Ended(f.current)
    ensures var f' := AfterRotate(f); Hold(codec, f', Rotated(f, w)) && Ended(f'.backup) && Ended(f'.current)
    ensures forall t | t in Records(Rotated(f, w)) :: t in Records(w)
  {
  }

  /** Files and a world with the same records and at most one more, and the same counts. */
  ghost predicate Extends(codec: Codec, f: Files, w: World, f': Files, w': World, t: Tracked) {
    && Hold(codec, f', w') && Ended(f'.backup) && Ended(f'.current)
    && (forall s | s in Records(w') :: s in Records(w) || s == t)
    && w'.commits == w.commits
  }

  lemma AppendHolds(codec: Codec, f: Files, w: World, t: Tracked, fault: AppendFault)
    requires Lawful(codec) && Hold(codec, f, w) && Ended(f.backup) && Ended(f.current) && t.entry.Dict?
    ensures Extends(codec, f, w, AfterAppend(codec, f, t.entry, fault), WithRecord(f, w, t, fault), t)
  {
    RotateHolds(codec, f, w);
    if fault.NoFault? {
      AppendReads(codec, AfterRotate(f).current, t.entry);
      EntriesAppend(Rotated(f, w).current, [t]);
      assert Entries([t]) == [t.entry];
      ValuesAreStable(codec, t.entry);
    }
  }

  /** A record that is new, and uncommitted if it is a replayable item, keeps the invariant. */
  lemma AppendSafe(f: Files, w: World, t: Tracked, fault: AppendFault, items: set<nat>, codes: set<int>)
    requires Safe(w, items, codes) && forall r | r in Records(w) :: r.id != t.id
    requires t.id in items ==> IsItem(t.entry) && (Replayable(t.entry, codes) ==> CommitCount(w.commits, t.id) == 0)
    ensures Safe(WithRecord(f, w, t, fault), items, codes)
  {
    var r := Rotated(f, w);
    RotatedDistinct(f, w);
    assert forall s | s in Records(r) :: s in Records(w);
    if fault.NoFault? {
      assert Records(WithRecord(f, w, t, fault)) == Records(r) + [t];
    }
  }

  lemma RotatedDistinct(f: Files, w: World)
    requires DistinctIds(Records(w))
    ensures DistinctIds(Records(Rotated(f, w)))
  {
    var r := Rotated(f, w);
    if r != w {
      assert forall i | 0 <= i < |w.current| :: Records(r)[i] == Records(w)[|w.backup| + i];
    }
  }

  /** A forward whose call leaves it replayable was not committed by that call. */
  lemma FailedForwardUncommitted(f: Forward, script: nat -> PostOutcome, attempts: nat)
    requires attempts > 0 && f.eventType == ITEM_EVENT && HonestScript(script)
    requires IsCall(script, 0, attempts, true, POST_MAX_ATTEMPTS, RETRY_STATUS_CODES)
    ensures TotalCommits(script, 0, attempts) <= 1
    ensures var last := script(attempts - 1);
            !IsDelivery(last) && Replayable(RecordOf(RecordFor(f, last)), RETRY_STATUS_CODES)
            ==> TotalCommits(script, 0, attempts) == 0
  {
    var last := script(attempts - 1);
    ItemCommittedAtMostOnce(script, 0, attempts, POST_MAX_ATTEMPTS, RETRY_STATUS_CODES);
    ReplayableDrop(RecordFor(f, last), RETRY_STATUS_CODES);
    if last.Raised? {
      ClassifierExact(last.error);
    }
  }

  lemma PostedFiles(codec: Codec, l: Life, record: Json, script: nat -> PostOutcome, attempts: nat)
    requires FilesHold(codec, l)
    ensures FilesHold(codec, Posted(l, record, script, attempts))
  {
    var l' := Posted(l, record, script, attempts);
    assert forall i: nat | i < |l.forwards| :: l'.forwards[i] == l.forwards[i];
    assert Records(l'.world) == Records(l.world);
  }

  lemma SoundWith(codec: Codec, l: Life, f: Files, w: World, t: Tracked)
    requires Sound(codec, l) && Extends(codec, l.files, l.world, f, w, t)
    requires t.id < |l.forwards| && l.forwards[t.id] == t.entry
    requires Safe(w, Items(l.forwards), RETRY_STATUS_CODES)
    ensures Sound(codec, l.(files := f, world := w))
  {
  }

  lemma RecordedSound(codec: Codec, l: Life, t: Tracked, fault: AppendFault)
    requires Lawful(codec) && Sound(codec, l)
    requires t.id < |l.forwards| && l.forwards[t.id] == t.entry && t.entry.Dict?
    requires forall s | s in Records(l.world) :: s.id != t.id
    requires IsItem(t.entry) && Replayable(t.entry, RETRY_STATUS_CODES) ==> CommitCount(l.world.commits, t.id) == 0
    ensures Sound(codec, Recorded(codec, l, t, fault))
  {
    AppendHolds(codec, l.files, l.world, t, fault);
    RecordedSafe(l, t, fault);
    SoundWith(codec, l, AfterAppend(codec, l.files, t.entry, fault), WithRecord(l.files, l.world, t, fault), t);
  }

  lemma RecordedSafe(l: Life, t: Tracked, fault: AppendFault)
    requires Safe(l.world, Items(l.forwards), RETRY_STATUS_CODES)
    requires t.id < |l.forwards| && l.forwards[t.id] == t.entry
    requires forall s | s in Records(l.world) :: s.id != t.id
    requires IsItem(t.entry) && Replayable(t.entry, RETRY_STATUS_CODES) ==> CommitCount(l.world.commits, t.id) == 0
    ensures Safe(WithRecord(l.files, l.world, t, fault), Items(l.forwards), RETRY_STATUS_CODES)
  {
    AppendSafe(l.files, l.world, t, fault, Items(l.forwards), RETRY_STATUS_CODES);
  }

  /** The record of a failed call can be replayed exactly when it is routed and its last attempt worth another try. */
  lemma FailedForwardReplayableExactly(f: Forward, last: PostOutcome)
    requires !IsDelivery(last)
    ensures Replayable(RecordOf(RecordFor(f, last)), RETRY_STATUS_CODES)
            <==> f.sessionId != "" && f.eventType != ""
                 && WorthAnotherTry(last, f.eventType == ITEM_EVENT, RETRY_STATUS_CODES)
  {
    ReplayableDrop(RecordFor(f, last), RETRY_STATUS_CODES);
  }

  /**
   A durable event whose call fails is in the files afterwards, last, unless
   the append failed; a call that succeeds, or of another event, leaves the files alone.
   */
  lemma FailedForwardIsRecorded(codec: Codec, l: Life, f: Forward, script: nat -> PostOutcome, attempts: nat,
                                fault: AppendFault)
    requires Lawful(codec) && FilesHold(codec, l) && attempts > 0
    ensures var l', last := Forwarded(codec, l, f, script, attempts, fault), script(attempts - 1);
            if (last.Responded? && last.status < 400)
               || f.eventType !in {"external_conversation_item", "external_session_usage"}
            then l'.files == l.files
            else fault.NoFault? ==>
              var entries := ReadFile(codec, l'.files.current);
              entries != [] && entries[|entries| - 1] == RecordOf(RecordFor(f, last))
  {
    AppendReads(codec, AfterRotate(l.files).current, RecordOf(RecordFor(f, script(attempts - 1))));
  }

  lemma PostedSound(codec: Codec, l: Life, record: Json, script: nat -> PostOutcome, attempts: nat)
    requires Sound(codec, l) && (IsItem(record) ==> TotalCommits(script, 0, attempts) <= 1)
    ensures Sound(codec, Posted(l, record, script, attempts))
  {
    PostedFiles(codec, l, record, script, attempts);
    PostedLog(l, record, script, attempts);
    PostedSafe(l, record, script, attempts);
  }

  lemma ForwardedSound(codec: Codec, l: Life, f: Forward, script: nat -> PostOutcome, attempts: nat, fault: AppendFault)
    requires Lawful(codec) && Sound(codec, l) && attempts > 0
    requires Fair(Sent(f, script, attempts, fault))
    ensures Sound(codec, Forwarded(codec, l, f, script, attempts, fault))
  {
    var last := script(attempts - 1);
    var drop := RecordFor(f, last);
    ReplayableDrop(drop, RETRY_STATUS_CODES);
    if IsItem(RecordOf(drop)) {
      FailedForwardUncommitted(f, script, attempts);
    }
    PostedSound(codec, l, RecordOf(drop), script, attempts);
    if !IsDelivery(last) && f.eventType in DEAD_LETTER_EVENT_TYPES {
      RecordedSound(codec, Posted(l, RecordOf(drop), script, attempts), Tracked(|l.forwards|, RecordOf(drop)), fault);
    }
  }

  // ----- a start -----

  lemma RewrittenEnds(codec: Codec, f: Option<string>, changed: bool, left: seq<Tracked>)
    requires Ended(f)
    ensures Ended(After(codec, f, changed, left))
  {
  }

  /** A record that is there after a pass is one from before it, changed at most in its classification. */
  lemma PassKeepsRecord(w: World, c: Conditions, t': Tracked) returns (t: Tracked)
    requires t' in Records(Next(w, c))
    ensures t in Records(w) && t.id == t'.id && OnlyClassificationDiffers(t.entry, t'.entry)
  {
    assert Run(w, []) == w && [c][..0] == [];
    assert Run(w, [c]) == Next(w, c);
    t := SameRecord(w, [c], t');
  }

  lemma ReplayedFiles(codec: Codec, l: Life, c: Conditions)
    requires Lawful(codec) && FilesHold(codec, l)
    ensures FilesHold(codec, Replayed(codec, l, c))
  {
    var p := PassOver(codec, c, l.files.backup, l.files.current);
    RestartHolds(codec, c, l.files, l.world);
    RewrittenEnds(codec, l.files.backup, p.backupChanged, p.backup);
    RewrittenEnds(codec, l.files.current, p.currentChanged, p.current);
    forall t' | t' in Records(Next(l.world, c))
      ensures t'.id < |l.forwards| && OnlyClassificationDiffers(l.forwards[t'.id], t'.entry)
    {
      var t := PassKeepsRecord(l.world, c, t');
      DifferenceAdds(l.forwards[t.id], t.entry, t'.entry);
    }
  }

  /** The POSTs of earlier forwards, and a world whose counts they account for. */
  lemma LogGrows(l: Life, l': Life, more: seq<Post>, authors: seq<nat>)
    requires LogHolds(l) && |more| == |authors|
    requires l'.forwards == l.forwards && l'.log == l.log + more && l'.authors == l.authors + authors
    requires forall k | 0 <= k < |more| ::
               authors[k] < |l.forwards| && OnlyClassificationDiffers(l.forwards[authors[k]], more[k].entry)
    requires forall id: nat ::
               CommitCount(l'.world.commits, id) == CommitCount(l.world.commits, id) + CommitsFor(more, authors, id)
    ensures LogHolds(l')
  {
    forall id: nat ensures CommitCount(l'.world.commits, id) == CommitsFor(l'.log, l'.authors, id) {
      CommitsForConcat(l.log, l.authors, more, authors, id);
    }
  }

  lemma PostsAreOfForwards(codec: Codec, l: Life, c: Conditions)
    requires FilesHold(codec, l)
    ensures var posted := ReplayPass(c, l.world.backup, l.world.current).posted;
            forall k | 0 <= k < |posted| ::
              Ids(posted)[k] < |l.forwards|
              && OnlyClassificationDiffers(l.forwards[Ids(posted)[k]], PostsOf(posted, c.outcomes)[k].entry)
  {
    PostedAt(c, l.world);
    var posted := ReplayPass(c, l.world.backup, l.world.current).posted;
    assert forall k | 0 <= k < |posted| :: posted[k] in posted;
  }

  lemma ReplayedLog(codec: Codec, l: Life, c: Conditions)
    requires Lawful(codec) && FilesHold(codec, l) && LogHolds(l)
    ensures LogHolds(Replayed(codec, l, c))
  {
    var posted := ReplayPass(c, l.world.backup, l.world.current).posted;
    RestartHolds(codec, c, l.files, l.world);
    SameEntriesSamePosts(PassOver(codec, c, l.files.backup, l.files.current).posted, posted, c.outcomes);
    PostsAreOfForwards(codec, l, c);
    forall id: nat
      ensures CommitCount(AfterPosts(l.world.commits, posted, c.outcomes), id)
              == CommitCount(l.world.commits, id) + CommitsFor(PostsOf(posted, c.outcomes), Ids(posted), id)
    {
      CountedByPosts(l.world.commits, posted, c.outcomes, id);
    }
    LogGrows(l, Replayed(codec, l, c), PostsOf(posted, c.outcomes), Ids(posted));
  }

  lemma ReplayedSound(codec: Codec, l: Life, c: Conditions)
    requires Lawful(codec) && Sound(codec, l) && Contract(c, RETRY_STATUS_CODES)
    ensures Sound(codec, Replayed(codec, l, c))
  {
    ReplayedFiles(codec, l, c);
    ReplayedLog(codec, l, c);
    PassKeepsSafe(c, l.world, Items(l.forwards), RETRY_STATUS_CODES);
  }

  // ----- the whole life -----

  lemma {:induction false} LifeSound(codec: Codec, events: seq<Event>)
    requires Lawful(codec) && forall e | e in events :: Fair(e)
    ensures Sound(codec, Live(codec, events))
  {
    if events != [] {
      var before, e := Live(codec, events[..|events| - 1]), events[|events| - 1];
      LifeSound(codec, events[..|events| - 1]);
      assert Fair(e);
      match e {
        case Sent(f, script, attempts, fault) =>
          if attempts > 0 {
            ForwardedSound(codec, before, f, script, attempts, fault);
          }
        case Started(c) =>
          ReplayedSound(codec, before, c);
      }
    }
  }

  /** The forwards of a life, in order, those without a call left out. */
  function ForwardsOf(events: seq<Event>): seq<Forward> {
    if events == [] then []
    else
      var last := events[|events| - 1];
      ForwardsOf(events[..|events| - 1]) + (if last.Sent? && last.attempts > 0 then [last.forward] else [])
  }

  /** The entry has the session, the type and the payload of the forward: what a POST of it sends. */
  predicate Carries(f: Forward, e: Json) {
    && e.Dict? && {"session_id", "event_type", "payload"} <= e.fields.Keys
    && e.fields["session_id"] == Str(f.sessionId)
    && e.fields["event_type"] == Str(f.eventType)
    && e.fields["payload"] == Dict(f.payload)
  }

  lemma StillCarries(f: Forward, a: Json, b: Json)
    requires Carries(f, a) && OnlyClassificationDiffers(a, b)
    ensures Carries(f, b)
  {
    if a != b {
      var kept := a.fields - {"delivered_ambiguous", "http_status"};
      forall key | key in {"session_id", "event_type", "payload"}
        ensures key in b.fields && b.fields[key] == a.fields[key]
      {
        assert key in kept && kept == b.fields - {"delivered_ambiguous", "http_status"};
      }
    }
  }

  lemma RecordCarries(f: Forward, last: PostOutcome)
    ensures Carries(f, RecordOf(RecordFor(f, last)))
  {
  }

  lemma ForwardAdded(codec: Codec, l: Life, f: Forward, script: nat -> PostOutcome, attempts: nat, fault: AppendFault)
    requires attempts > 0
    ensures Forwarded(codec, l, f, script, attempts, fault).forwards
            == l.forwards + [RecordOf(RecordFor(f, script(attempts - 1)))]
  {
  }

  ghost predicate AllCarried(forwards: seq<Forward>, entries: seq<Json>) {
    |forwards| == |entries| && forall i | 0 <= i < |forwards| :: Carries(forwards[i], entries[i])
  }

  lemma {:induction false} ForwardsAreCarried(codec: Codec, events: seq<Event>)
    ensures AllCarried(ForwardsOf(events), Live(codec, events).forwards)
  {
    if events != [] {
      var before := Live(codec, events[..|events| - 1]);
      ForwardsAreCarried(codec, events[..|events| - 1]);
      match events[|events| - 1] {
        case Sent(f, script, attempts, fault) =>
          if attempts > 0 {
            RecordCarries(f, script(attempts - 1));
            ForwardAdded(codec, before, f, script, attempts, fault);
          }
        case Started(c) =>
          assert Replayed(codec, before, c).forwards == before.forwards;
      }
    }
  }

  /**
   Over any life of a directory, with calls that fail or succeed, appends that
   rotate or fail, and starts that replay in any order: every POST, live or
   replayed from the text of the files, sends the session, the type and the
   payload of one of the forwards; all the POSTs of one conversation item
   together commit it at most once; and a replayable item in the files is still
   uncommitted.
   */
  lemma ItemsCommittedOnceOverLife(codec: Codec, events: seq<Event>)
    requires Lawful(codec) && forall e | e in events :: Fair(e)
    ensures var l := Live(codec, events);
            && |l.log| == |l.authors|
            && (forall k | 0 <= k < |l.log| ::
                  l.authors[k] < |ForwardsOf(events)| && Carries(ForwardsOf(events)[l.authors[k]], l.log[k].entry))
            && (forall id: nat | id < |ForwardsOf(events)| && ForwardsOf(events)[id].eventType == ITEM_EVENT ::
                  CommitsFor(l.log, l.authors, id) <= 1)
            && ReadFile(codec, l.files.backup) == Entries(l.world.backup)
            && ReadFile(codec, l.files.current) == Entries(l.world.current)
            && (forall t | t in Records(l.world) && IsItem(t.entry) && Replayable(t.entry, RETRY_STATUS_CODES) ::
                  t.id < |ForwardsOf(events)| && CommitsFor(l.log, l.authors, t.id) == 0)
  {
    var l := Live(codec, events);
    LifeSound(codec, events);
    forall t | t in Records(l.world) && IsItem(t.entry) && Replayable(t.entry, RETRY_STATUS_CODES)
      ensures t.id < |l.forwards| && CommitsFor(l.log, l.authors, t.id) == 0
    {
      SameKind(l.forwards[t.id], t.entry);
      assert t.id in Items(l.forwards);
    }
    ForwardsAreCarried(codec, events);
    forall k | 0 <= k < |l.log| ensures Carries(ForwardsOf(events)[l.authors[k]], l.log[k].entry) {
      StillCarries(ForwardsOf(events)[l.authors[k]], l.forwards[l.authors[k]], l.log[k].entry);
    }
    forall id: nat | id < |ForwardsOf(events)| && ForwardsOf(events)[id].eventType == ITEM_EVENT
      ensures CommitsFor(l.log, l.authors, id) <= 1
    {
      assert IsItem(l.forwards[id]) && id in Items(l.forwards);
    }
  }

  lemma SameKind(a: Json, b: Json)
    requires OnlyClassificationDiffers(a, b)
    ensures IsItem(a) <==> IsItem(b)
  {
    if a != b {
      var kept := a.fields - {"delivered_ambiguous", "http_status"};
      assert "event_type" in a.fields <==> "event_type" in kept;
      assert "event_type" in b.fields <==> "event_type" in kept;
    }
  }
}
