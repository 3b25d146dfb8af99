/**
 The dead-letter files of one bridge directory
 (omnicraft/_native_post_delivery.py): appending with rotation to a single
 backup, and replay over the files' text.
 */
module DeadLetterStore {
  import opened Wrappers
  import opened JsonValues
  import opened PostDelivery
  import opened DeadLetterText
  import opened DeadLetterReplay
  import opened RankedFates

  const MAX_BYTES := 50 * 1024 * 1024

  /** Where an append can fail; it never raises. */
  datatype AppendFault = NoFault | BeforeRotation | AfterRotation

  /** A dropped forward, with the classification its sender gave it. */
  datatype Drop = Drop(ts: int, sessionId: string, eventType: string, payload: map<string, Json>, reason: string,
                       ambiguous: bool, httpStatus: Option<int>, transportError: Option<string>)

  function RecordOf(d: Drop): Json {
    Dict(map["ts" := Num(d.ts),
             "session_id" := Str(d.sessionId),
             "event_type" := Str(d.eventType),
             "reason" := Str(d.reason),
             "delivered_ambiguous" := Bool(d.ambiguous),
             "http_status" := StatusJson(d.httpStatus),
             "transport_error" := if d.transportError.None? then Null else Str(d.transportError.value),
             "payload" := Dict(d.payload)])
  }

  /** A drop can be replayed exactly when it was routed, unambiguous and not permanently rejected. */
  lemma ReplayableDrop(d: Drop, codes: set<int>)
    ensures Replayable(RecordOf(d), codes)
            <==> d.sessionId != "" && d.eventType != "" && !d.ambiguous
                 && (d.httpStatus.Some? ==> d.httpStatus.value in codes)
    ensures IsItem(RecordOf(d)) <==> d.eventType == ITEM_EVENT
  {
    if d.httpStatus.Some? {
      assert AsInt(Num(d.httpStatus.value)) == [d.httpStatus.value];
    }
  }

  function Lines(codec: Codec, records: seq<Json>): string {
    WriteLines(RenderAll(codec, records))
  }

  /** Text of a file, empty when there is none; printed lines are ASCII, so characters are bytes. */
  function TextOf(file: Option<string>): string {
    file.GetOr("")
  }

  /** The two files of a directory, each there or not. */
  datatype Files = Files(backup: Option<string>, current: Option<string>)

  /** At the cap the current file becomes the backup, and what was the backup is dropped. */
  function AfterRotate(f: Files): Files {
    if |TextOf(f.current)| >= MAX_BYTES then Files(f.current, None) else f
  }

  /** What an append makes of the files, whatever they hold. */
  function AfterAppend(codec: Codec, f: Files, record: Json, fault: AppendFault): Files {
    match fault
    case BeforeRotation => f
    case AfterRotation => AfterRotate(f)
    case NoFault =>
      var r := AfterRotate(f);
      r.(current := Some(TextOf(r.current) + codec.print_(record) + "\n"))
  }

  /** Only the last record can have taken a file to the cap. */
  ghost predicate UnderCapBeforeLast(codec: Codec, records: seq<Json>) {
    records != [] ==> |Lines(codec, records[..|records| - 1])| < MAX_BYTES
  }

  lemma LinesSnoc(codec: Codec, records: seq<Json>, r: Json)
    ensures Lines(codec, records + [r]) == Lines(codec, records) + RenderEntry(codec, r) + "\n"
  {
    assert RenderAll(codec, records + [r]) == RenderAll(codec, records) + [RenderEntry(codec, r)];
    assert (RenderAll(codec, records) + [RenderEntry(codec, r)])[..|records|] == RenderAll(codec, records);
  }

  /** Entries as read from a file, each with its own identity for the rest of the run. */
  function Label(entries: seq<Json>, base: nat): seq<Tracked> {
    seq(|entries|, i requires 0 <= i < |entries| => Tracked(base + i, entries[i]))
  }

  function Entries(items: seq<Tracked>): seq<Json> {
    seq(|items|, i requires 0 <= i < |items| => items[i].entry)
  }

  /** The pass over what the two files hold. */
  function PassOver(codec: Codec, c: Conditions, backup: Option<string>, current: Option<string>): Pass {
    var older := Label(ReadFile(codec, backup), 0);
    ReplayPass(c, older, Label(ReadFile(codec, current), |older|))
  }

  /** `backup` holds the records from `dropped` to `rotated`, `current` those from `rotated` on. */
  ghost predicate Holds(codec: Codec, history: seq<Json>, dropped: nat, rotated: nat, backup: string, current: string) {
    && dropped <= rotated <= |history|
    && (forall r | r in history :: r.Dict?)
    && backup == Lines(codec, history[dropped..rotated])
    && current == Lines(codec, history[rotated..])
    && UnderCapBeforeLast(codec, history[dropped..rotated])
    && UnderCapBeforeLast(codec, history[rotated..])
    && (dropped > 0 ==> |backup| >= MAX_BYTES)
  }

  lemma HoldsAppend(codec: Codec, history: seq<Json>, dropped: nat, rotated: nat, backup: string, current: string, r: Json)
    requires Holds(codec, history, dropped, rotated, backup, current)
    requires r.Dict? && |current| < MAX_BYTES
    ensures Holds(codec, history + [r], dropped, rotated, backup, current + codec.print_(r) + "\n")
  {
    var records := history[rotated..];
    LinesSnoc(codec, records, r);
    assert (history + [r])[rotated..] == records + [r];
    assert (history + [r])[dropped..rotated] == history[dropped..rotated];
    assert (records + [r])[..|records|] == records;
  }

  lemma HoldsRotate(codec: Codec, history: seq<Json>, dropped: nat, rotated: nat, backup: string, current: string)
    requires Holds(codec, history, dropped, rotated, backup, current)
    requires |current| >= MAX_BYTES
    ensures Holds(codec, history, rotated, |history|, current, "")
  {
    assert history[|history|..] == [] && history[rotated..|history|] == history[rotated..];
  }

  lemma HoldsReads(codec: Codec, history: seq<Json>, dropped: nat, rotated: nat, backup: Option<string>, current: Option<string>)
    requires Holds(codec, history, dropped, rotated, TextOf(backup), TextOf(current)) && Lawful(codec)
    ensures ReadFile(codec, backup) + ReadFile(codec, current) == history[dropped..]
  {
    AllDicts(history, dropped, rotated);
    ReadsBack(codec, history[dropped..rotated], backup);
    ReadsBack(codec, history[rotated..], current);
  }

  lemma AllDicts(history: seq<Json>, dropped: nat, rotated: nat)
    requires dropped <= rotated <= |history| && forall r | r in history :: r.Dict?
    ensures forall r | r in history[dropped..rotated] :: r.Dict?
    ensures forall r | r in history[rotated..] :: r.Dict?
    ensures history[dropped..rotated] + history[rotated..] == history[dropped..]
  {
  }

  lemma HoldsAll(codec: Codec, history: seq<Json>, rotated: nat, backup: string, current: string)
    requires Holds(codec, history, 0, rotated, backup, current)
    ensures backup + current == Lines(codec, history)
  {
    var older, newer := history[..rotated], history[rotated..];
    assert RenderAll(codec, history) == RenderAll(codec, older) + RenderAll(codec, newer);
    WriteLinesConcat(RenderAll(codec, older), RenderAll(codec, newer));
  }

  class DeadLetters {
    const codec: Codec
    var backup: Option<string>
    var current: Option<string>
    /** Records POSTed by replays so far, in order. */
    var sent: seq<Json>
    /** Records appended so far; the files hold those from `dropped` on, the current one those from `rotated` on. */
    ghost var history: seq<Json>
    ghost var dropped: nat
    ghost var rotated: nat

    constructor (codec: Codec)
      ensures this.codec == codec
      ensures Appended() && history == [] && backup == None && current == None && sent == []
    {
      this.codec := codec;
      backup, current, sent := None, None, [];
      history, dropped, rotated := [], 0, 0;
    }

    /** What appends alone keep true of the two files. */
    ghost predicate Appended()
      reads this
    {
      Holds(codec, history, dropped, rotated, TextOf(backup), TextOf(current))
    }

    method AppendDeadLetter(d: Drop, fault: AppendFault)
      modifies this`backup, this`current, this`history, this`dropped, this`rotated
      ensures Files(backup, current) == AfterAppend(codec, Files(old(backup), old(current)), RecordOf(d), fault)
      ensures history == if fault.NoFault? then old(history) + [RecordOf(d)] else old(history)
      ensures old(Appended()) ==> Appended()
    {
      if fault.BeforeRotation? {
        return;
      }
      Rotate();
      if fault.AfterRotation? {
        return;
      }
      var record := RecordOf(d);
      if Appended() {
        HoldsAppend(codec, history, dropped, rotated, TextOf(backup), TextOf(current), record);
      }
      current := Some(TextOf(current) + codec.print_(record) + "\n");
      history := history + [record];
    }

    method Rotate()
      modifies this`backup, this`current, this`dropped, this`rotated
      ensures Files(backup, current) == AfterRotate(Files(old(backup), old(current)))
      ensures old(Appended()) ==> Appended()
    {
      if current.Some? && |current.value| >= MAX_BYTES {
        if Appended() {
          HoldsRotate(codec, history, dropped, rotated, TextOf(backup), TextOf(current));
        }
        backup := current;
        current := None;
        dropped, rotated := rotated, |history|;
      }
    }

    /**
     After any run of appends the pair reads, backup then current, as a suffix
     of everything appended; that suffix is everything or at least the cap; and
     each file stays below the cap plus its longest line.
     */
    lemma Retention(longest: nat)
      requires Appended() && Lawful(codec)
      requires forall r | r in history :: |codec.print_(r)| < longest
      ensures ReadFile(codec, backup) + ReadFile(codec, current) == history[dropped..]
      ensures |TextOf(backup)| + |TextOf(current)| >= MAX_BYTES
              || |TextOf(backup)| + |TextOf(current)| == |Lines(codec, history)|
      ensures |TextOf(backup)| < MAX_BYTES + longest && |TextOf(current)| < MAX_BYTES + longest
    {
      HoldsReads(codec, history, dropped, rotated, backup, current);
      BelowCap(codec, history[dropped..rotated], longest);
      BelowCap(codec, history[rotated..], longest);
      if dropped == 0 {
        HoldsAll(codec, history, rotated, TextOf(backup), TextOf(current));
      }
    }

    /** Replays both files; returns how many records were delivered. */
    method ReplayDeadLetters(c: Conditions) returns (replayed: nat)
      modifies this`backup, this`current, this`sent
      ensures var p := PassOver(codec, c, old(backup), old(current));
              && replayed == p.replayed
              && sent == old(sent) + Entries(p.posted)
              && backup == After(codec, old(backup), p.backupChanged, p.backup)
              && current == After(codec, old(current), p.currentChanged, p.current)
    {
      var loadedBackup := ReadDeadLetterEntries(codec, backup);
      var loadedCurrent := ReadDeadLetterEntries(codec, current);
      var older := Label(loadedBackup.GetOr([]), 0);
      var newer := Label(loadedCurrent.GetOr([]), |older|);
      var anyReplayable := AnyReplayable(older, c.codes);
      if !anyReplayable {
        anyReplayable := AnyReplayable(newer, c.codes);
      }
      if !anyReplayable {
        NothingToReplay(c, START, older);
        NothingToReplay(c, START.(retained := [], changed := false), newer);
        return 0;
      }
      var d := DrainEntries(c, START, older);
      if d.changed {
        backup := RewriteDeadLetterEntries(codec, Entries(d.retained));
      }
      d := DrainEntries(c, d.(retained := [], changed := false), newer);
      if d.changed {
        current := RewriteDeadLetterEntries(codec, Entries(d.retained));
      }
      sent := sent + Entries(d.posted);
      replayed := d.replayed;
    }
  }

  method AnyReplayable(items: seq<Tracked>, codes: set<int>) returns (any: bool)
    ensures any <==> exists i :: 0 <= i < |items| && Replayable(items[i].entry, codes)
  {
    for i := 0 to |items|
      invariant forall k | 0 <= k < i :: !Replayable(items[k].entry, codes)
    {
      if Replayable(items[i].entry, codes) {
        return true;
      }
    }
    any := false;
  }

  /** The loop over one file's entries. */
  method DrainEntries(c: Conditions, start: Drain, items: seq<Tracked>) returns (d: Drain)
    ensures d == DrainFile(c, start, items)
  {
    var attempted: nat, replayed: nat, deferred: nat, stop := start.attempted, start.replayed, start.deferred, start.stop;
    var ticks: nat, retained, changed, posted := start.ticks, start.retained, start.changed, start.posted;
    for i := 0 to |items|
      invariant Drain(attempted, replayed, deferred, stop, ticks, retained, changed, posted)
                == DrainFile(c, start, items[..i])
    {
      assert items[..i + 1][..i] == items[..i];
      var entry := items[i];
      if !Replayable(entry.entry, c.codes) {
        retained := retained + [entry];
        continue;
      }
      if stop {
        deferred := deferred + 1;
        retained := retained + [entry];
        continue;
      }
      var overRecords := c.maxRecords.Some? && attempted >= c.maxRecords.value;
      ticks := ticks + 1;
      var overDeadline := c.deadlineSeconds.Some? && c.clock(ticks) >= c.clock(0) + c.deadlineSeconds.value;
      if overRecords || overDeadline {
        stop := true;
        deferred := deferred + 1;
        retained := retained + [entry];
        continue;
      }
      var result := Repost(entry.entry, c.outcomes(attempted));
      attempted := attempted + 1;
      posted := posted + [entry];
      if result.delivered {
        replayed := replayed + 1;
        changed := true;
        continue;
      }
      if !SameClassification(entry.entry.fields, result) {
        entry := Tracked(entry.id, Reclassify(entry.entry, result));
        changed := true;
      }
      retained := retained + [entry];
    }
    assert items[..|items|] == items;
    d := Drain(attempted, replayed, deferred, stop, ticks, retained, changed, posted);
  }

  lemma ReadsBack(codec: Codec, records: seq<Json>, file: Option<string>)
    requires Lawful(codec) && (forall r | r in records :: r.Dict?) && TextOf(file) == Lines(codec, records)
    ensures ReadFile(codec, file) == records
  {
    forall r | r in records ensures Stable(codec, r) {
      ValuesAreStable(codec, r);
    }
    RewriteRoundTrip(codec, records);
  }

  lemma BelowCap(codec: Codec, records: seq<Json>, longest: nat)
    requires UnderCapBeforeLast(codec, records)
    requires forall r | r in records :: r.Dict? && |codec.print_(r)| < longest
    ensures |Lines(codec, records)| < MAX_BYTES + longest
  {
    if records != [] {
      var init, last := records[..|records| - 1], records[|records| - 1];
      assert records == init + [last];
      LinesSnoc(codec, init, last);
    }
  }

  lemma {:induction false} NothingToReplay(c: Conditions, d: Drain, items: seq<Tracked>)
    requires forall i | 0 <= i < |items| :: !Replayable(items[i].entry, c.codes)
    ensures DrainFile(c, d, items) == d.(retained := d.retained + items)
  {
    if items != [] {
      NothingToReplay(c, d, items[..|items| - 1]);
    }
  }

  /** What is in a file after a pass that left it these records. */
  function After(codec: Codec, file: Option<string>, changed: bool, left: seq<Tracked>): Option<string> {
    if changed then Rewritten(codec, Entries(left)) else file
  }

  ghost predicate ReadsRetainedExactly(codec: Codec, file: Option<string>, changed: bool, left: seq<Tracked>) {
    ReadFile(codec, After(codec, file, changed, left)) == Entries(left) <==> !changed || Survivable(codec, file)
  }

  /**
   The next start-up reads of each file what this pass retained exactly when
   the pass left the file alone or everything that was in it survives.
   */
  lemma NextStartReadsRetained(codec: Codec, c: Conditions, backup: Option<string>, current: Option<string>)
    requires Lawful(codec)
    ensures var p := PassOver(codec, c, backup, current);
            && ReadsRetainedExactly(codec, backup, p.backupChanged, p.backup)
            && ReadsRetainedExactly(codec, current, p.currentChanged, p.current)
  {
    var older := Label(ReadFile(codec, backup), 0);
    var newer := Label(ReadFile(codec, current), |older|);
    LabelHolds(ReadFile(codec, backup), 0);
    LabelHolds(ReadFile(codec, current), |older|);
    BackupReadsRetained(codec, c, backup, older, newer);
    CurrentReadsRetained(codec, c, current, older, newer);
  }

  lemma BackupReadsRetained(codec: Codec, c: Conditions, file: Option<string>, older: seq<Tracked>, newer: seq<Tracked>)
    requires Lawful(codec) && Entries(older) == ReadFile(codec, file)
    ensures var p := ReplayPass(c, older, newer); ReadsRetainedExactly(codec, file, p.backupChanged, p.backup)
  {
    var p := PassSplits(c, older, newer);
    PassUnchanged(c, older, newer);
    FileReadsBack(codec, c, file, older, 0, FromBackup(c, older, p.attempted), p.backupChanged, p.backup);
  }

  lemma CurrentReadsRetained(codec: Codec, c: Conditions, file: Option<string>, older: seq<Tracked>, newer: seq<Tracked>)
    requires Lawful(codec) && Entries(newer) == ReadFile(codec, file)
    ensures var p := ReplayPass(c, older, newer); ReadsRetainedExactly(codec, file, p.currentChanged, p.current)
  {
    var p := PassSplits(c, older, newer);
    var k1 := FromBackup(c, older, p.attempted);
    PassUnchanged(c, older, newer);
    FileReadsBack(codec, c, file, newer, k1, p.attempted - k1, p.currentChanged, p.current);
  }

  lemma PassUnchanged(c: Conditions, backup: seq<Tracked>, current: seq<Tracked>)
    ensures var p := ReplayPass(c, backup, current);
            (!p.backupChanged ==> p.backup == backup) && (!p.currentChanged ==> p.current == current)
  {
    PassKeepsLists(c, backup, current);
  }

  lemma LabelHolds(entries: seq<Json>, base: nat)
    ensures Entries(Label(entries, base)) == entries
  {
  }

  lemma FileReadsBack(codec: Codec, c: Conditions, file: Option<string>, items: seq<Tracked>, base: nat, k: nat,
                      changed: bool, left: seq<Tracked>)
    requires Lawful(codec) && Entries(items) == ReadFile(codec, file)
    requires left == Survivors(items, c, base, k) && (!changed ==> left == items)
    ensures ReadsRetainedExactly(codec, file, changed, left)
  {
    RewriteExactly(codec, Entries(left));
    forall s | Str(s) in Entries(left) || Str(s) in Entries(items)
      ensures Str(s) in Entries(left) && Str(s) in Entries(items)
    {
      StringsStay(items, c, base, k, s);
    }
    assert forall e | e in Entries(left) + Entries(items) :: !Survives(codec, e) ==> e == Str(e.s);
  }

  /** A pass neither drops nor adds a raw line. */
  lemma StringsStay(items: seq<Tracked>, c: Conditions, base: nat, k: nat, s: string)
    ensures Str(s) in Entries(items) <==> Str(s) in Entries(Survivors(items, c, base, k))
  {
    var left := Survivors(items, c, base, k);
    if Str(s) in Entries(items) {
      var i :| 0 <= i < |items| && Entries(items)[i] == Str(s);
      UnselectedStay(items, Test(c.codes), Fate(c.outcomes), base, k, items[i]);
      var j :| 0 <= j < |left| && left[j] == items[i];
      assert Entries(left)[j] == Str(s);
    }
    if Str(s) in Entries(left) {
      var j :| 0 <= j < |left| && Entries(left)[j] == Str(s);
      RawLineWasThere(items, c, base, k, left[j]);
      var i :| 0 <= i < |items| && items[i] == left[j];
      assert Entries(items)[i] == Str(s);
    }
  }

  lemma RawLineWasThere(items: seq<Tracked>, c: Conditions, base: nat, k: nat, t: Tracked)
    requires t in Survivors(items, c, base, k) && t.entry.Str?
    ensures t in items
  {
    var n := ResultFrom(items, Test(c.codes), Fate(c.outcomes), base, k, t);
    SelectedFrom(items, Test(c.codes));
    if n < |Rep(items, c.codes)| {
      var from := Rep(items, c.codes)[n];
      assert from in Rep(items, c.codes) && Test(c.codes)(from);
      AttemptedIsRecord(c, from, base + n);
    }
  }

  lemma AttemptedIsRecord(c: Conditions, t: Tracked, n: nat)
    requires Replayable(t.entry, c.codes)
    ensures t.entry.Dict? && forall r | r in Fate(c.outcomes)(t, n) :: r.entry.Dict?
  {
    var after := Reclassify(t.entry, Repost(t.entry, c.outcomes(n)));
    assert Fate(c.outcomes)(t, n) == if Repost(t.entry, c.outcomes(n)).delivered then [] else [Tracked(t.id, after)];
  }

  lemma LabelledStable(codec: Codec, file: Option<string>, base: nat)
    requires Lawful(codec) && Survivable(codec, file)
    ensures AllStable(codec, Label(ReadFile(codec, file), base))
    ensures Entries(Label(ReadFile(codec, file), base)) == ReadFile(codec, file)
  {
    var entries := ReadFile(codec, file);
    forall t | t in Label(entries, base) ensures Stable(codec, t.entry) {
      assert t.entry in entries;
      StableExactly(codec, t.entry);
    }
  }

  lemma EntriesRoundTrip(codec: Codec, items: seq<Tracked>)
    requires AllStable(codec, items)
    ensures ReadFile(codec, Rewritten(codec, Entries(items))) == Entries(items)
  {
    forall e | e in Entries(items) ensures Stable(codec, e) {
      var i :| 0 <= i < |items| && Entries(items)[i] == e;
      assert items[i] in items;
    }
    RewriteRoundTrip(codec, Entries(items));
  }

  ghost predicate AllStable(codec: Codec, items: seq<Tracked>) {
    forall t | t in items :: Stable(codec, t.entry)
  }

  lemma StepStable(codec: Codec, c: Conditions, d: Drain, t: Tracked)
    requires Lawful(codec) && Stable(codec, t.entry) && AllStable(codec, d.retained)
    ensures AllStable(codec, StepEntry(c, d, t).retained)
  {
    if StepEntry(c, d, t).attempted == d.attempted {
      StepKeeps(c, d, t);
    } else {
      StepAttempts(c, d, t);
      AttemptedIsRecord(c, t, d.attempted);
      forall s | s in Fate(c.outcomes)(t, d.attempted) ensures Stable(codec, s.entry) {
        ValuesAreStable(codec, s.entry);
      }
    }
  }

  /** Reclassified records print, and everything else is retained as it was read. */
  lemma {:induction false} StableDrain(codec: Codec, c: Conditions, d: Drain, items: seq<Tracked>)
    requires Lawful(codec) && AllStable(codec, items) && AllStable(codec, d.retained)
    ensures AllStable(codec, DrainFile(c, d, items).retained)
  {
    if items != [] {
      StableDrain(codec, c, d, items[..|items| - 1]);
      StepStable(codec, c, DrainFile(c, d, items[..|items| - 1]), items[|items| - 1]);
    }
  }

  lemma StablePass(codec: Codec, c: Conditions, older: seq<Tracked>, newer: seq<Tracked>)
    requires Lawful(codec) && AllStable(codec, older) && AllStable(codec, newer)
    ensures AllStable(codec, ReplayPass(c, older, newer).backup) && AllStable(codec, ReplayPass(c, older, newer).current)
  {
    StableDrain(codec, c, START, older);
    StableDrain(codec, c, DrainFile(c, START, older).(retained := [], changed := false), newer);
  }
}
