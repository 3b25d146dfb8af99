/**
 What a session receives over the outer loop. Each visit of the reader starts
 with fresh trackers, so exactly-once holds per visit; whether it holds per
 session depends on how the visits end.
 */
module SessionReceipts {
  import opened Wrappers
  import opened Sequences
  import opened Steps
  import opened StepKeys
  import opened Reader
  import opened ExactlyOnce
  import RotationDetection
  import SessionRotation

  /** A visit and what it sights; its committed steps are its settled keys. */
  datatype Sitting = Sitting(visit: SessionRotation.Visit, sightings: seq<Sighting>)

  ghost predicate CountsItsKeys(s: Sitting) {
    s.visit.committed == |SettledKeys(s.sightings)|
  }

  /** The session was sent what a settled key of the conversation commits. */
  datatype Receipt = Receipt(session: string, conversation: string, key: Key)

  /** A visit sights the conversation that bridge state names and posts to the current session. */
  function Receipts(r: SessionRotation.Run, xs: seq<Sighting>): seq<Receipt> {
    var firsts := FirstSettled(xs);
    seq(|firsts|, i requires 0 <= i < |firsts| => Receipt(r.current, r.bridge.conversation, StepKey(firsts[i])))
  }

  /** `kept`: the bindings of a session to a conversation that a failed rotation has left in force. */
  datatype Life = Life(run: SessionRotation.Run, inbox: seq<Receipt>, kept: set<SessionRotation.Bridge>,
                       sessions: set<string>)

  function Begin(session: string, conversation: string): Life {
    Life(SessionRotation.Start(session, conversation), [], {}, {session})
  }

  function Sit(l: Life, s: Sitting): Life {
    if !l.run.phase.Serving? then l
    else
      var r := SessionRotation.Step(l.run, s.visit);
      Life(r,
           l.inbox + Receipts(l.run, s.sightings),
           if r.failures != l.run.failures then l.kept + {l.run.bridge} else l.kept,
           l.sessions + {r.current})
  }

  function SitAll(l: Life, sittings: seq<Sitting>): Life {
    if sittings == [] then l else Sit(SitAll(l, sittings[..|sittings| - 1]), sittings[|sittings| - 1])
  }

  /** The server names every session it creates anew. */
  ghost predicate NamesAnew(l: Life, s: Sitting) {
    s.visit.server.created.Some? ==> s.visit.server.created.value !in l.sessions
  }

  ghost predicate Admissible(start: Life, sittings: seq<Sitting>) {
    forall i | 0 <= i < |sittings| :: CountsItsKeys(sittings[i]) && NamesAnew(SitAll(start, sittings[..i]), sittings[i])
  }

  function Visits(sittings: seq<Sitting>): seq<SessionRotation.Visit> {
    seq(|sittings|, i requires 0 <= i < |sittings| => sittings[i].visit)
  }

  /** The binding and the session follow the outer loop. */
  lemma {:induction false} FollowsTheLoop(session: string, conversation: string, sittings: seq<Sitting>)
    ensures SitAll(Begin(session, conversation), sittings).run
            == SessionRotation.Steps(SessionRotation.Start(session, conversation), Visits(sittings))
  {
    if sittings != [] {
      FollowsTheLoop(session, conversation, sittings[..|sittings| - 1]);
      assert Visits(sittings)[..|sittings| - 1] == Visits(sittings[..|sittings| - 1]);
    }
  }

  // ----- what the loop keeps -----

  predicate HasReceived(inbox: seq<Receipt>, session: string, conversation: string) {
    exists r | r in inbox :: r.session == session && r.conversation == conversation
  }

  /** Nothing is received twice but under a binding that a failed rotation left in force. */
  ghost predicate RepeatsOnlyKept(inbox: seq<Receipt>, kept: set<SessionRotation.Bridge>) {
    forall i, j | 0 <= i < j < |inbox| && inbox[i] == inbox[j] ::
      SessionRotation.Bridge(inbox[i].session, inbox[i].conversation) in kept
  }

  /**
   While the loop serves, the current session has received something of a
   conversation exactly if a failed rotation left it bound to it.
   */
  ghost predicate Kept(l: Life) {
    && l.run.bridge.session == l.run.current && l.run.current in l.sessions
    && (forall b | b in l.kept :: b.session in l.sessions)
    && (l.kept == {} <==> l.run.failures == [])
    && (forall r | r in l.inbox :: r.session in l.sessions && exists s :: IsSettled(s) && StepKey(s) == r.key)
    && (l.run.phase.Serving? ==>
          forall c :: HasReceived(l.inbox, l.run.current, c) <==> SessionRotation.Bridge(l.run.current, c) in l.kept)
    && RepeatsOnlyKept(l.inbox, l.kept)
  }

  /** All of them are of the current session and conversation, each settled key once. */
  lemma ReceiptsOfVisit(r: SessionRotation.Run, xs: seq<Sighting>)
    ensures forall x | x in Receipts(r, xs) ::
              && x.session == r.current && x.conversation == r.bridge.conversation
              && exists s :: IsSettled(s) && StepKey(s) == x.key
    ensures NoDuplicates(Receipts(r, xs))
    ensures Receipts(r, xs) != [] <==> |SettledKeys(xs)| > 0
  {
    FirstSettledKeys(xs);
    var receipts, firsts := Receipts(r, xs), FirstSettled(xs);
    forall x | x in receipts
      ensures x.session == r.current && x.conversation == r.bridge.conversation
      ensures exists s :: IsSettled(s) && StepKey(s) == x.key
    {
      var i :| 0 <= i < |receipts| && receipts[i] == x;
      assert firsts[i] in firsts;
    }
    if receipts != [] {
      assert firsts[0] in firsts && StepKey(firsts[0]) in SettledKeys(xs);
    }
  }

  /** How a visit can end, as far as sessions go. */
  lemma VisitEnds(r: SessionRotation.Run, v: SessionRotation.Visit)
    requires r.phase.Serving?
    ensures var r' := SessionRotation.Step(r, v);
            && (r'.current != r.current ==> r'.failures == r.failures && v.committed > 0
                                            && v.server.created == Some(r'.current))
            && (r'.failures != r.failures ==> r'.failures != [] && v.committed > 0
                                              && r'.current == r.current && r'.bridge == r.bridge)
            && (r.bridge.session == r.current ==> r'.bridge.session == r'.current)
            && (r'.phase.Serving? && r'.current == r.current && r'.failures == r.failures ==>
                  v.committed == 0 || v.server.created == Some(r.current))
  {
  }

  lemma ReceivedSnoc(inbox: seq<Receipt>, receipts: seq<Receipt>, session: string, conversation: string)
    ensures HasReceived(inbox + receipts, session, conversation)
            <==> HasReceived(inbox, session, conversation) || HasReceived(receipts, session, conversation)
  {
    assert forall r :: r in inbox + receipts <==> r in inbox || r in receipts;
  }

  /** Receipts of a binding under which nothing was received yet, or which may repeat. */
  lemma InboxGrows(inbox: seq<Receipt>, receipts: seq<Receipt>, bridge: SessionRotation.Bridge,
                   kept: set<SessionRotation.Bridge>)
    requires forall r | r in receipts :: r.session == bridge.session && r.conversation == bridge.conversation
    requires RepeatsOnlyKept(inbox, kept) && NoDuplicates(receipts)
    requires bridge in kept || !HasReceived(inbox, bridge.session, bridge.conversation)
    ensures RepeatsOnlyKept(inbox + receipts, kept)
  {
    forall i, j | 0 <= i < |inbox| && 0 <= j < |receipts| && inbox[i] == receipts[j] ensures bridge in kept {
      assert receipts[j] in receipts && inbox[i] in inbox;
    }
    assert forall j | 0 <= j < |receipts| :: receipts[j] in receipts;
  }

  lemma SitKeeps(l: Life, s: Sitting)
    requires Kept(l) && CountsItsKeys(s) && NamesAnew(l, s)
    ensures Kept(Sit(l, s))
  {
    if l.run.phase.Serving? {
      var l', receipts := Sit(l, s), Receipts(l.run, s.sightings);
      VisitEnds(l.run, s.visit);
      ReceiptsOfVisit(l.run, s.sightings);
      assert forall r :: r in l'.inbox <==> r in l.inbox || r in receipts;
      forall c
        ensures l'.run.phase.Serving? ==>
                  (HasReceived(l'.inbox, l'.run.current, c) <==> SessionRotation.Bridge(l'.run.current, c) in l'.kept)
      {
        ReceivedSnoc(l.inbox, receipts, l'.run.current, c);
        assert receipts != [] ==> receipts[0] in receipts;
      }
      InboxGrows(l.inbox, receipts, l.run.bridge, l.kept);
    }
  }

  lemma AdmissibleInit(start: Life, sittings: seq<Sitting>)
    requires Admissible(start, sittings) && sittings != []
    ensures Admissible(start, sittings[..|sittings| - 1])
  {
    var init := sittings[..|sittings| - 1];
    assert forall i | 0 <= i < |init| :: init[i] == sittings[i] && init[..i] == sittings[..i];
  }

  lemma {:induction false} LoopKeeps(session: string, conversation: string, sittings: seq<Sitting>)
    requires Admissible(Begin(session, conversation), sittings)
    ensures Kept(SitAll(Begin(session, conversation), sittings))
  {
    if sittings != [] {
      var init := sittings[..|sittings| - 1];
      AdmissibleInit(Begin(session, conversation), sittings);
      LoopKeeps(session, conversation, init);
      SitKeeps(SitAll(Begin(session, conversation), init), sittings[|sittings| - 1]);
    }
  }

  /**
   Over the whole loop a session receives a settled key of a conversation twice
   only if a failed rotation left it bound to that conversation; in particular
   nothing is received twice while no rotation fails.
   */
  lemma ReceivedOnceUnlessRotationFails(session: string, conversation: string, sittings: seq<Sitting>)
    requires Admissible(Begin(session, conversation), sittings)
    ensures var l := SitAll(Begin(session, conversation), sittings);
            && RepeatsOnlyKept(l.inbox, l.kept)
            && (l.run.failures == [] ==> NoDuplicates(l.inbox))
  {
    LoopKeeps(session, conversation, sittings);
  }

  /**
   A failed rotation is what breaks it: at any head of the loop, whatever the
   next visit sights leaves the receipts without repetition exactly when there
   is none yet and no failed rotation has left the present binding in force.
   After one, the next visit's on-connect snapshot is sent to the same session again.
   */
  lemma NextVisitRepeatsExactlyAfterFailure(session: string, conversation: string, sittings: seq<Sitting>)
    requires Admissible(Begin(session, conversation), sittings)
    requires SitAll(Begin(session, conversation), sittings).run.phase.Serving?
    ensures var l := SitAll(Begin(session, conversation), sittings);
            (forall xs: seq<Sighting> :: NoDuplicates(l.inbox + Receipts(l.run, xs)))
            <==> NoDuplicates(l.inbox) && l.run.bridge !in l.kept
  {
    var l := SitAll(Begin(session, conversation), sittings);
    LoopKeeps(session, conversation, sittings);
    if NoDuplicates(l.inbox) && l.run.bridge !in l.kept {
      forall xs: seq<Sighting> ensures NoDuplicates(l.inbox + Receipts(l.run, xs)) {
        ReceiptsOfVisit(l.run, xs);
        InboxGrows(l.inbox, Receipts(l.run, xs), l.run.bridge, {});
      }
    }
    if l.run.bridge in l.kept {
      assert HasReceived(l.inbox, l.run.current, l.run.bridge.conversation);
      var r :| r in l.inbox && r.session == l.run.current && r.conversation == l.run.bridge.conversation;
      var s :| IsSettled(s) && StepKey(s) == r.key;
      ReceiptRepeats(l, r, s);
    }
    if forall xs: seq<Sighting> :: NoDuplicates(l.inbox + Receipts(l.run, xs)) {
      assert NoDuplicates(l.inbox + Receipts(l.run, []));
      assert l.inbox + Receipts(l.run, []) == l.inbox;
    }
  }

  /** Sighting a step of a received key once more is enough. */
  lemma ReceiptRepeats(l: Life, r: Receipt, s: Step)
    requires r in l.inbox && r.session == l.run.current && r.conversation == l.run.bridge.conversation
    requires IsSettled(s) && StepKey(s) == r.key
    ensures !NoDuplicates(l.inbox + Receipts(l.run, [Sighting(Polled, s)]))
  {
    var xs := [Sighting(Polled, s)];
    assert xs[..0] == [];
    assert FirstSettled(xs) == [s];
    var i :| 0 <= i < |l.inbox| && l.inbox[i] == r;
    var all := l.inbox + Receipts(l.run, xs);
    assert all[i] == all[|l.inbox|];
  }

  // ----- adoption after a failure -----

  /** The visit ends with a cascade adopted in place. */
  ghost predicate Adopts(l: Life, s: Sitting) {
    && l.run.phase.Serving? && s.visit.committed == 0 && s.visit.server.writeOk
    && RotationDetection.FirstSignal(s.visit.ticks, l.run.bridge.conversation, l.run.failed).Some?
  }

  /**
   Adoption in place is meant for a session whose cascade never took a turn,
   but a visit counts only its own steps. What it binds to another conversation
   is a session that has already received something exactly when a failed
   rotation has left that session bound to some conversation.
   */
  lemma AdoptsIntoUsedSessionExactly(session: string, conversation: string, sittings: seq<Sitting>, s: Sitting)
    requires Admissible(Begin(session, conversation), sittings)
    requires Adopts(SitAll(Begin(session, conversation), sittings), s)
    ensures var l := SitAll(Begin(session, conversation), sittings);
            && Sit(l, s).run.current == l.run.current
            && Sit(l, s).run.bridge.conversation != l.run.bridge.conversation
            && ((exists c :: HasReceived(l.inbox, l.run.current, c))
                <==> exists b :: b in l.kept && b.session == l.run.current)
  {
    var l := SitAll(Begin(session, conversation), sittings);
    LoopKeeps(session, conversation, sittings);
    FollowsTheLoop(session, conversation, sittings);
    SessionRotation.BridgeNamesTheSession(session, conversation, Visits(sittings));
    SessionRotation.VisitRebinds(l.run, s.visit);
    SessionRotation.SignalIsAnother(s.visit.ticks, l.run.bridge.conversation, l.run.failed);
    if b :| b in l.kept && b.session == l.run.current {
      assert HasReceived(l.inbox, l.run.current, b.conversation);
    }
    if c :| HasReceived(l.inbox, l.run.current, c) {
      assert SessionRotation.Bridge(l.run.current, c) in l.kept;
    }
  }
}
