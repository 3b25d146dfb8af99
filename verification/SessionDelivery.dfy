/**
 From agy to the sessions: the visits of the outer loop, each posting through
 the bounded retry loop over a transport of its own.
 */
module SessionDelivery {
  import opened Sequences
  import opened PostDelivery
  import opened Steps
  import opened StepKeys
  import opened Reader
  import opened ExactlyOnce
  import opened ItemDelivery
  import opened SessionReceipts
  import SessionRotation

  /** A sitting, what the catalog lookup gives it, and how its events go over the wire. */
  datatype Shift = Shift(sitting: Sitting, fetched: Catalog, script: nat -> PostOutcome, cuts: seq<nat>)

  /** Who a visit posts for, and what it reads. */
  function Binding(r: SessionRotation.Run): SessionRotation.Bridge {
    SessionRotation.Bridge(r.current, r.bridge.conversation)
  }

  function Posted(r: SessionRotation.Run, s: Shift): seq<Event> {
    SeeAll(FreshState(r.bridge.conversation), s.sitting.sightings, s.fetched).out
  }

  /** The transport is honest and the retry loop made one call per event. */
  ghost predicate Carried(r: SessionRotation.Run, s: Shift, limits: Limits) {
    HonestScript(s.script) && DividesIntoCalls(s.script, Posted(r, s), limits, s.cuts)
  }

  function Sittings(shifts: seq<Shift>): seq<Sitting> {
    seq(|shifts|, i requires 0 <= i < |shifts| => shifts[i].sitting)
  }

  /** The loop before the shift numbered `i`. */
  function Before(start: Life, shifts: seq<Shift>, i: nat): Life
    requires i <= |shifts|
  {
    SitAll(start, Sittings(shifts[..i]))
  }

  ghost predicate AllCarried(start: Life, shifts: seq<Shift>, limits: Limits) {
    forall i | 0 <= i < |shifts| && Before(start, shifts, i).run.phase.Serving? ::
      Carried(Before(start, shifts, i).run, shifts[i], limits)
  }

  // ----- which item is which -----

  /** One of the items that a settled key commits. */
  datatype Place = Place(receipt: Receipt, ordinal: nat)

  /** The items that the last of the steps commits after the ones before it. */
  function LastItems(cascade: string, steps: seq<Step>, fetched: Catalog): seq<Event>
    requires steps != []
  {
    var init := steps[..|steps| - 1];
    ItemsOf(CommitEffect(Mirror(cascade, init, fetched).core, steps[|steps| - 1], fetched).events)
  }

  /** The places of one receipt. */
  function PlacesOf(receipt: Receipt, n: nat): seq<Place> {
    seq(n, o requires 0 <= o < n => Place(receipt, o))
  }

  function Places(b: SessionRotation.Bridge, steps: seq<Step>, fetched: Catalog): seq<Place> {
    if steps == [] then []
    else
      Places(b, steps[..|steps| - 1], fetched)
      + PlacesOf(Receipt(b.session, b.conversation, StepKey(steps[|steps| - 1])),
                 |LastItems(b.conversation, steps, fetched)|)
  }

  lemma ItemsSnoc(cascade: string, steps: seq<Step>, fetched: Catalog)
    requires steps != []
    ensures ItemsOf(Mirror(cascade, steps, fetched).events)
            == ItemsOf(Mirror(cascade, steps[..|steps| - 1], fetched).events) + LastItems(cascade, steps, fetched)
  {
    var before := Mirror(cascade, steps[..|steps| - 1], fetched);
    ItemsOfConcat(before.events, CommitEffect(before.core, steps[|steps| - 1], fetched).events);
  }

  lemma {:induction false} PlacesFit(b: SessionRotation.Bridge, steps: seq<Step>, fetched: Catalog)
    ensures |Places(b, steps, fetched)| == |ItemsOf(Mirror(b.conversation, steps, fetched).events)|
  {
    if steps != [] {
      var init := steps[..|steps| - 1];
      PlacesFit(b, init, fetched);
      ItemsSnoc(b.conversation, steps, fetched);
    }
  }

  /** The item is the one of that number that the j-th step commits, after the ones before it, under its key. */
  ghost predicate Holds(b: SessionRotation.Bridge, steps: seq<Step>, fetched: Catalog, p: Place, item: Event, j: nat) {
    && j < |steps|
    && p.receipt == Receipt(b.session, b.conversation, StepKey(steps[j]))
    && p.ordinal < |LastItems(b.conversation, steps[..j + 1], fetched)|
    && item == LastItems(b.conversation, steps[..j + 1], fetched)[p.ordinal]
  }

  lemma HoldsEarlier(b: SessionRotation.Bridge, steps: seq<Step>, n: nat, fetched: Catalog,
                     p: Place, item: Event, j: nat)
    requires n <= |steps| && Holds(b, steps[..n], fetched, p, item, j)
    ensures Holds(b, steps, fetched, p, item, j)
  {
    assert steps[..n][..j + 1] == steps[..j + 1];
  }

  lemma HoldsLast(b: SessionRotation.Bridge, steps: seq<Step>, fetched: Catalog, o: nat)
    requires steps != [] && o < |LastItems(b.conversation, steps, fetched)|
    ensures Holds(b, steps, fetched, Place(Receipt(b.session, b.conversation, StepKey(steps[|steps| - 1])), o),
                  LastItems(b.conversation, steps, fetched)[o], |steps| - 1)
  {
    assert steps[..|steps|] == steps;
  }

  /** Every item of a pass is at its own place. */
  lemma {:induction false} PlaceHolds(b: SessionRotation.Bridge, steps: seq<Step>, fetched: Catalog, k: nat)
    returns (j: nat)
    requires k < |Places(b, steps, fetched)| == |ItemsOf(Mirror(b.conversation, steps, fetched).events)|
    ensures Holds(b, steps, fetched, Places(b, steps, fetched)[k],
                  ItemsOf(Mirror(b.conversation, steps, fetched).events)[k], j)
  {
    var n := |steps| - 1;
    PlacesFit(b, steps[..n], fetched);
    ItemsSnoc(b.conversation, steps, fetched);
    var m := |Places(b, steps[..n], fetched)|;
    if k < m {
      j := PlaceHolds(b, steps[..n], fetched, k);
      HoldsEarlier(b, steps, n, fetched, Places(b, steps, fetched)[k],
                   ItemsOf(Mirror(b.conversation, steps, fetched).events)[k], j);
    } else {
      j := n;
      HoldsLast(b, steps, fetched, k - m);
    }
  }

  ghost predicate OfStep(b: SessionRotation.Bridge, steps: seq<Step>, p: Place) {
    exists s :: s in steps && p.receipt == Receipt(b.session, b.conversation, StepKey(s))
  }

  lemma {:induction false} PlacesAreOfSteps(b: SessionRotation.Bridge, steps: seq<Step>, fetched: Catalog)
    ensures forall p | p in Places(b, steps, fetched) :: OfStep(b, steps, p)
  {
    if steps != [] {
      var init, last := steps[..|steps| - 1], steps[|steps| - 1];
      PlacesAreOfSteps(b, init, fetched);
      assert last in steps;
      forall p | p in Places(b, init, fetched) ensures OfStep(b, steps, p) {
        var s :| s in init && p.receipt == Receipt(b.session, b.conversation, StepKey(s));
        assert s in steps;
      }
    }
  }

  lemma {:induction false} PlacesDistinct(b: SessionRotation.Bridge, steps: seq<Step>, fetched: Catalog)
    requires forall i, j | 0 <= i < j < |steps| :: StepKey(steps[i]) != StepKey(steps[j])
    ensures NoDuplicates(Places(b, steps, fetched))
  {
    if steps != [] {
      var n := |steps| - 1;
      PlacesDistinct(b, steps[..n], fetched);
      PlacesAreOfSteps(b, steps[..n], fetched);
      forall p | p in Places(b, steps[..n], fetched) ensures p.receipt.key != StepKey(steps[n]) {
        var s :| s in steps[..n] && p.receipt == Receipt(b.session, b.conversation, StepKey(s));
        var i :| 0 <= i < n && steps[i] == s;
      }
    }
  }

  // ----- one visit -----

  datatype Delivery = Delivery(place: Place, item: Event, commits: nat)

  /** What arrives of a shift is what its first settled steps commit, each item at a place of its own. */
  lemma ShiftFits(r: SessionRotation.Run, s: Shift, limits: Limits)
    requires Carried(r, s, limits)
    ensures |s.cuts| == |Posted(r, s)| + 1 && InOrder(s.cuts)
    ensures var b := Binding(r);
            var arrivals := Arrivals(s.script, Posted(r, s), s.cuts);
            && |arrivals| == |Places(b, FirstSettled(s.sitting.sightings), s.fetched)|
            && Arrived(arrivals)
               == ItemsOf(Mirror(b.conversation, FirstSettled(s.sitting.sightings), s.fetched).events)
            && (forall a | a in arrivals :: a.commits <= 1)
  {
    var b := Binding(r);
    ItemsCommittedAtMostOnce(b.conversation, s.sitting.sightings, s.fetched, s.script, limits, s.cuts);
    PlacesFit(b, FirstSettled(s.sitting.sightings), s.fetched);
  }

  ghost function Deliveries(r: SessionRotation.Run, s: Shift, limits: Limits): seq<Delivery>
    requires Carried(r, s, limits)
  {
    ShiftFits(r, s, limits);
    var places := Places(Binding(r),
                         FirstSettled(s.sitting.sightings), s.fetched);
    var arrivals := Arrivals(s.script, Posted(r, s), s.cuts);
    seq(|arrivals|, k requires 0 <= k < |arrivals| => Delivery(places[k], arrivals[k].item, arrivals[k].commits))
  }

  /** An item that arrives is one that a first settled step commits, at the place of its key and number. */
  lemma DeliveryHolds(r: SessionRotation.Run, s: Shift, limits: Limits, k: nat) returns (j: nat)
    requires Carried(r, s, limits) && k < |Deliveries(r, s, limits)|
    ensures Holds(Binding(r), FirstSettled(s.sitting.sightings), s.fetched,
                  Deliveries(r, s, limits)[k].place, Deliveries(r, s, limits)[k].item, j)
  {
    ShiftFits(r, s, limits);
    var arrivals := Arrivals(s.script, Posted(r, s), s.cuts);
    assert Arrived(arrivals)[k] == arrivals[k].item;
    j := PlaceHolds(Binding(r), FirstSettled(s.sitting.sightings), s.fetched, k);
  }

  ghost predicate DistinctPlaces(ds: seq<Delivery>) {
    forall i, j | 0 <= i < j < |ds| :: ds[i].place != ds[j].place
  }

  lemma DeliveriesDistinct(r: SessionRotation.Run, s: Shift, limits: Limits)
    requires Carried(r, s, limits)
    ensures DistinctPlaces(Deliveries(r, s, limits))
  {
    FirstSettledKeys(s.sitting.sightings);
    PlacesDistinct(Binding(r), FirstSettled(s.sitting.sightings), s.fetched);
    ShiftFits(r, s, limits);
  }

  lemma DeliveryOnce(r: SessionRotation.Run, s: Shift, limits: Limits, k: nat)
    requires Carried(r, s, limits) && k < |Deliveries(r, s, limits)|
    ensures var d := Deliveries(r, s, limits)[k]; d.commits <= 1 && d.place.receipt in Receipts(r, s.sitting.sightings)
  {
    ShiftFits(r, s, limits);
    var arrivals := Arrivals(s.script, Posted(r, s), s.cuts);
    assert arrivals[k] in arrivals;
    var j := DeliveryHolds(r, s, limits, k);
    assert Receipts(r, s.sitting.sightings)[j] == Deliveries(r, s, limits)[k].place.receipt;
  }

  lemma DeliveriesOnce(r: SessionRotation.Run, s: Shift, limits: Limits)
    requires Carried(r, s, limits)
    ensures forall d | d in Deliveries(r, s, limits) ::
              d.commits <= 1 && d.place.receipt in Receipts(r, s.sitting.sightings)
  {
    forall d | d in Deliveries(r, s, limits)
      ensures d.commits <= 1 && d.place.receipt in Receipts(r, s.sitting.sightings)
    {
      var k :| 0 <= k < |Deliveries(r, s, limits)| && Deliveries(r, s, limits)[k] == d;
      DeliveryOnce(r, s, limits, k);
    }
  }

  // ----- the whole loop -----

  lemma SittingsSnoc(shifts: seq<Shift>)
    requires shifts != []
    ensures Sittings(shifts) == Sittings(shifts[..|shifts| - 1]) + [shifts[|shifts| - 1].sitting]
  {
  }

  lemma CarriedInit(start: Life, shifts: seq<Shift>, limits: Limits)
    requires AllCarried(start, shifts, limits) && shifts != []
    ensures AllCarried(start, shifts[..|shifts| - 1], limits)
  {
    var init := shifts[..|shifts| - 1];
    forall i | 0 <= i < |init|
      ensures Before(start, init, i) == Before(start, shifts, i) && init[i] == shifts[i]
    {
      assert init[..i] == shifts[..i];
    }
  }

  /** Every item that arrived anywhere over the loop, in order. */
  ghost function Ledger(start: Life, shifts: seq<Shift>, limits: Limits): seq<Delivery>
    requires AllCarried(start, shifts, limits)
  {
    if shifts == [] then []
    else
      CarriedInit(start, shifts, limits);
      var n := |shifts| - 1;
      var l := Before(start, shifts, n);
      Ledger(start, shifts[..n], limits) + (if l.run.phase.Serving? then Deliveries(l.run, shifts[n], limits) else [])
  }

  /** What arrived belongs to a receipt, and arrives again only under a binding that was kept. */
  ghost predicate Accounted(ds: seq<Delivery>, l: Life) {
    && (forall d | d in ds :: d.commits <= 1 && d.place.receipt in l.inbox)
    && forall i, j | 0 <= i < j < |ds| && ds[i].place == ds[j].place ::
         SessionRotation.Bridge(ds[i].place.receipt.session, ds[i].place.receipt.conversation) in l.kept
  }

  lemma AccountedGrows(ds: seq<Delivery>, more: seq<Delivery>, l: Life, l': Life)
    requires Accounted(ds, l) && DistinctPlaces(more)
    requires l.kept <= l'.kept && forall r | r in l.inbox :: r in l'.inbox
    requires forall d | d in more :: d.commits <= 1 && d.place.receipt in l'.inbox
    requires forall d | d in more :: d.place.receipt in l.inbox ==>
               SessionRotation.Bridge(d.place.receipt.session, d.place.receipt.conversation) in l'.kept
    ensures Accounted(ds + more, l')
  {
    var all := ds + more;
    forall i, j | 0 <= i < j < |all| && all[i].place == all[j].place
      ensures SessionRotation.Bridge(all[i].place.receipt.session, all[i].place.receipt.conversation) in l'.kept
    {
      if i < |ds| <= j {
        assert ds[i] in ds && more[j - |ds|] in more;
      }
    }
  }

  lemma ShiftAccounted(ds: seq<Delivery>, l: Life, s: Shift, limits: Limits)
    requires Kept(l) && l.run.phase.Serving? && Carried(l.run, s, limits) && Accounted(ds, l)
    ensures Accounted(ds + Deliveries(l.run, s, limits), Sit(l, s.sitting))
  {
    var receipts, more := Receipts(l.run, s.sitting.sightings), Deliveries(l.run, s, limits);
    DeliveriesDistinct(l.run, s, limits);
    DeliveriesOnce(l.run, s, limits);
    ReceiptsOfVisit(l.run, s.sitting.sightings);
    forall d | d in more && d.place.receipt in l.inbox
      ensures SessionRotation.Bridge(d.place.receipt.session, d.place.receipt.conversation) in l.kept
    {
      assert HasReceived(l.inbox, l.run.current, d.place.receipt.conversation);
    }
    AccountedGrows(ds, more, l, Sit(l, s.sitting));
  }

  /** One more shift. */
  lemma LedgerSnoc(start: Life, shifts: seq<Shift>, limits: Limits)
    requires AllCarried(start, shifts, limits) && shifts != []
    requires AllCarried(start, shifts[..|shifts| - 1], limits)
    requires Accounted(Ledger(start, shifts[..|shifts| - 1], limits), Before(start, shifts, |shifts| - 1))
    requires Kept(Before(start, shifts, |shifts| - 1))
    ensures Accounted(Ledger(start, shifts, limits), SitAll(start, Sittings(shifts)))
  {
    var n := |shifts| - 1;
    var l := Before(start, shifts, n);
    CarriedInit(start, shifts, limits);
    SittingsSnoc(shifts);
    assert SitAll(start, Sittings(shifts)) == Sit(l, shifts[n].sitting);
    if l.run.phase.Serving? {
      ShiftAccounted(Ledger(start, shifts[..n], limits), l, shifts[n], limits);
    }
  }

  lemma {:induction false} LedgerAccounted(session: string, conversation: string, shifts: seq<Shift>, limits: Limits)
    requires Admissible(Begin(session, conversation), Sittings(shifts))
    requires AllCarried(Begin(session, conversation), shifts, limits)
    ensures Accounted(Ledger(Begin(session, conversation), shifts, limits),
                      SitAll(Begin(session, conversation), Sittings(shifts)))
  {
    if shifts != [] {
      var start, init := Begin(session, conversation), shifts[..|shifts| - 1];
      CarriedInit(start, shifts, limits);
      SittingsSnoc(shifts);
      AdmissibleInit(start, Sittings(shifts));
      assert Sittings(shifts)[..|init|] == Sittings(init);
      LedgerAccounted(session, conversation, init, limits);
      LoopKeeps(session, conversation, Sittings(init));
      LedgerSnoc(start, shifts, limits);
    }
  }

  /** How often the server committed the item at a place. */
  function CommitsAt(ds: seq<Delivery>, place: Place): nat {
    if ds == [] then 0
    else CommitsAt(ds[..|ds| - 1], place) + (if ds[|ds| - 1].place == place then ds[|ds| - 1].commits else 0)
  }

  lemma {:induction false} OncePlacedOnceCommitted(ds: seq<Delivery>, place: Place)
    requires forall d | d in ds :: d.commits <= 1
    requires forall i, j | 0 <= i < j < |ds| :: ds[i].place == place ==> ds[j].place != place
    ensures CommitsAt(ds, place) <= 1
    ensures (forall d | d in ds :: d.place != place) ==> CommitsAt(ds, place) == 0
  {
    if ds != [] {
      var init, last := ds[..|ds| - 1], ds[|ds| - 1];
      assert last in ds && forall d | d in init :: d in ds;
      OncePlacedOnceCommitted(init, place);
      if last.place == place {
        forall d | d in init ensures d.place != place {
          var i :| 0 <= i < |init| && init[i] == d;
          assert ds[i] == d;
        }
      }
    }
  }

  /**
   From agy to the sessions, over any number of visits, rotations and
   adoptions and any honest transport: in a session, the item of that number
   that a settled key of a conversation commits is committed at most once,
   unless a failed rotation left the session bound to that conversation.
   */
  lemma ItemsCommittedOncePerSession(session: string, conversation: string, shifts: seq<Shift>, limits: Limits,
                                     place: Place)
    requires Admissible(Begin(session, conversation), Sittings(shifts))
    requires AllCarried(Begin(session, conversation), shifts, limits)
    requires SessionRotation.Bridge(place.receipt.session, place.receipt.conversation)
             !in SitAll(Begin(session, conversation), Sittings(shifts)).kept
    ensures CommitsAt(Ledger(Begin(session, conversation), shifts, limits), place) <= 1
  {
    LedgerAccounted(session, conversation, shifts, limits);
    OncePlacedOnceCommitted(Ledger(Begin(session, conversation), shifts, limits), place);
  }
}
