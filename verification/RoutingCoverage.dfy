/**
  Facts about every run of the router, with no condition on how requests interleave: which
  namespaces cached values, placements and forwarded requests can name, and what overlapping
  resolves of one workflow id can return.
 */
module RoutingCoverage {
  import opened Options
  import Rings
  import opened PhysicalNames
  import opened VirtualNamespaces
  import opened Routing
  import opened RoutingSafety

  // ---------- drain coverage ----------

  /** The slot is one the workflow's virtual namespace still lists, cordoned or not. */
  predicate Listed(w: World, s: Router, wid: string, slot: string) {
    w.vnsOf(wid) in s.registry && slot in s.registry[w.vnsOf(wid)].statuses
  }

  ghost predicate HomeListed(w: World, s: Router, wid: string, home: Namespace) {
    exists slot :: Listed(w, s, wid, slot) && Parse(slot) == Some(home)
  }

  ghost predicate FlightListed(w: World, s: Router, f: Flight) {
    match f
    case Missed(_, _) => true
    case Looked(_, wid, slot) => slot == "" || Listed(w, s, wid, slot)
    case Routed(_, wid, home) => HomeListed(w, s, wid, home)
    case Dropped(wid, home) => HomeListed(w, s, wid, home)
    case Polled(wid, slot) => Listed(w, s, wid, slot)
  }

  ghost predicate RegistrySound(w: World, s: Router) {
    forall v :: v in s.registry ==> Sound(w.hash, w.nodes, s.registry[v])
  }

  ghost predicate Covered(w: World, s: Router) {
    && RegistrySound(w, s)
    && (forall wid :: Cached(s, wid) != "" ==> Listed(w, s, wid, Cached(s, wid)))
    && (forall id :: id in s.flights ==> FlightListed(w, s, s.flights[id]))
    && (forall wid, home :: (wid, home) in s.open ==> HomeListed(w, s, wid, home))
  }

  lemma SoundStep(w: World, s: Router, e: Event)
    requires Enabled(w, s, e) && RegistrySound(w, s)
    ensures RegistrySound(w, Step(w, s, e))
  {
    match e
    case AddNs(v, name, address) => AddKeepsSound(w.hash, w.nodes, s.registry[v], Build(name, address));
    case RemoveNs(v, name, address) => RemoveKeepsSound(w.hash, w.nodes, s.registry[v], Build(name, address));
    case _ =>
  }

  /** Nothing is ever struck off the list. */
  lemma ListedStays(w: World, s: Router, e: Event, wid: string, slot: string)
    requires Enabled(w, s, e) && Listed(w, s, wid, slot)
    ensures Listed(w, Step(w, s, e), wid, slot)
  {
  }

  lemma HomeListedStays(w: World, s: Router, e: Event, wid: string, home: Namespace)
    requires Enabled(w, s, e) && HomeListed(w, s, wid, home)
    ensures HomeListed(w, Step(w, s, e), wid, home)
  {
    var slot :| Listed(w, s, wid, slot) && Parse(slot) == Some(home);
    ListedStays(w, s, e, wid, slot);
  }

  lemma FlightListedStays(w: World, s: Router, e: Event, f: Flight)
    requires Enabled(w, s, e) && FlightListed(w, s, f)
    ensures FlightListed(w, Step(w, s, e), f)
  {
    if f.Routed? || f.Dropped? { HomeListedStays(w, s, e, f.wid, f.home); }
    if (f.Looked? || f.Polled?) && f.slot != "" { ListedStays(w, s, e, f.wid, f.slot); }
    if f.Polled? { ListedStays(w, s, e, f.wid, f.slot); }
  }

  lemma FlightsStayListed(w: World, s: Router, e: Event, id: nat)
    requires Enabled(w, s, e) && Covered(w, s) && id in Step(w, s, e).flights
    ensures FlightListed(w, Step(w, s, e), Step(w, s, e).flights[id])
  {
    var f := Step(w, s, e).flights[id];
    if id in s.flights && s.flights[id] == f {
      FlightListedStays(w, s, e, f);
    } else if e.Lookup? {
      PlacementIsActive(w.hash, w.nodes, s.registry[w.vnsOf(f.wid)], f.wid);
    } else if e.Put? {
      assert Listed(w, s, f.wid, s.flights[id].slot) by { ParseEmpty(); }
      ListedStays(w, s, e, f.wid, s.flights[id].slot);
    } else if e.Begin? && f.Routed? {
      ListedStays(w, s, e, f.wid, Cached(s, f.wid));
    } else if e.Delete? {
      HomeListedStays(w, s, e, f.wid, f.home);
    }
  }

  lemma CacheStaysListed(w: World, s: Router, e: Event, wid: string)
    requires Enabled(w, s, e) && Covered(w, s) && Cached(Step(w, s, e), wid) != ""
    ensures Listed(w, Step(w, s, e), wid, Cached(Step(w, s, e), wid))
  {
    var slot := Cached(Step(w, s, e), wid);
    assert Listed(w, s, wid, slot) by {
      if slot != Cached(s, wid) { assert FlightListed(w, s, s.flights[e.id]); }
    }
    ListedStays(w, s, e, wid, slot);
  }

  lemma CoveredStep(w: World, s: Router, e: Event)
    requires Enabled(w, s, e) && Covered(w, s)
    ensures Covered(w, Step(w, s, e))
  {
    var s' := Step(w, s, e);
    SoundStep(w, s, e);
    forall wid | Cached(s', wid) != "" ensures Listed(w, s', wid, Cached(s', wid)) {
      CacheStaysListed(w, s, e, wid);
    }
    forall id | id in s'.flights ensures FlightListed(w, s', s'.flights[id]) {
      FlightsStayListed(w, s, e, id);
    }
    forall wid, home | (wid, home) in s'.open ensures HomeListed(w, s', wid, home) {
      if (wid, home) !in s.open { assert FlightListed(w, s, s.flights[e.id]); }
      HomeListedStays(w, s, e, wid, home);
    }
  }

  lemma {:induction false} CoveredRun(w: World, s: Router, es: seq<Event>)
    requires IsRun(w, s, es) && Covered(w, s)
    ensures Covered(w, After(w, s, es))
    decreases |es|
  {
    if es != [] {
      CoveredStep(w, s, es[0]);
      CoveredRun(w, Step(w, s, es[0]), es[1..]);
    }
  }

  /** In every run: a cached namespace is still listed, so polls keep reaching it after it is
      cordoned, and so is every home a request is sent to or a workflow is open on; while what
      the ring answers to a lookup is active at that moment, never cordoned. */
  lemma DrainCoverage(w: World, es: seq<Event>, wid: string)
    requires IsRun(w, INITIAL, es)
    ensures var s := After(w, INITIAL, es);
            && (Cached(s, wid) != "" ==> Listed(w, s, wid, Cached(s, wid)))
            && (forall home :: (wid, home) in s.open ==> HomeListed(w, s, wid, home))
            && (forall e, home :: Sends(s, e, wid, home) ==> HomeListed(w, s, wid, home))
            && (Place(w, s, wid) != "" ==>
                  Listed(w, s, wid, Place(w, s, wid)) &&
                  s.registry[w.vnsOf(wid)].statuses[Place(w, s, wid)] == Active)
  {
    CoveredRun(w, INITIAL, es);
    var s := After(w, INITIAL, es);
    forall e, home | Sends(s, e, wid, home) ensures HomeListed(w, s, wid, home) {
      assert FlightListed(w, s, s.flights[e.id]);
    }
    if w.vnsOf(wid) in s.registry {
      PlacementIsActive(w.hash, w.nodes, s.registry[w.vnsOf(wid)], wid);
    }
  }

  // ---------- requests carry registered names ----------

  /** Every listed slot was registered by an AddNs among `es`. */
  ghost predicate Registered(es: seq<Event>, s: Router) {
    forall v, slot :: v in s.registry && slot in s.registry[v].statuses ==>
      exists e :: e in es && e.AddNs? && e.vns == v && Build(e.name, e.address) == slot
  }

  lemma {:induction false} RegisteredRun(w: World, s: Router, past: seq<Event>, es: seq<Event>)
    requires IsRun(w, s, es) && Registered(past, s)
    ensures Registered(past + es, After(w, s, es))
    decreases |es|
  {
    if es == [] {
      assert past + es == past;
    } else {
      var e, s' := es[0], Step(w, s, es[0]);
      assert Registered(past + [e], s') by {
        forall v, slot | v in s'.registry && slot in s'.registry[v].statuses
          ensures exists x :: x in past + [e] && x.AddNs? && x.vns == v && Build(x.name, x.address) == slot
        {
          if v in s.registry && slot in s.registry[v].statuses {
            var x :| x in past && x.AddNs? && x.vns == v && Build(x.name, x.address) == slot;
            assert x in past + [e];
          } else {
            assert e in past + [e];
          }
        }
      }
      RegisteredRun(w, s', past + [e], es[1..]);
      assert past + [e] + es[1..] == past + es;
    }
  }

  /** If every namespace was registered under a clean name and address, each request sent for wid
      carries the name and the host of a namespace registered for wid's virtual namespace. */
  lemma SendsRegisteredNames(w: World, es: seq<Event>, e: Event, wid: string, home: Namespace)
    requires IsRun(w, INITIAL, es) && Sends(After(w, INITIAL, es), e, wid, home)
    requires forall x :: x in es && x.AddNs? ==> Clean(x.name, x.address)
    ensures exists x :: x in es && x.AddNs? && x.vns == w.vnsOf(wid) && home == Namespace(x.name, x.address)
  {
    var s := After(w, INITIAL, es);
    DrainCoverage(w, es, wid);
    RegisteredRun(w, INITIAL, [], es);
    assert [] + es == es;
    var slot :| Listed(w, s, wid, slot) && Parse(slot) == Some(home);
    var x :| x in es && x.AddNs? && x.vns == w.vnsOf(wid) && Build(x.name, x.address) == slot;
    ParseBuild(x.name, x.address);
  }

  // ---------- overlapping resolves ----------

  ghost predicate FlightWithin(f: Flight, allowed: set<string>) {
    match f
    case Missed(_, _) => true
    case Looked(_, _, slot) => slot in allowed
    case Routed(_, _, home) => exists slot :: slot in allowed && Parse(slot) == Some(home)
    case Dropped(_, _) => false
    case Polled(_, _) => false
  }

  /** Everything in motion for wid comes from a slot of `allowed`. */
  ghost predicate Within(w: World, s: Router, wid: string, allowed: set<string>) {
    && Place(w, s, wid) in allowed
    && Cached(s, wid) in allowed + {""}
    && forall id :: id in s.flights && s.flights[id].wid == wid ==> FlightWithin(s.flights[id], allowed)
  }

  /** The step removes nothing from wid's ring, completes no wid and hands out no task of wid. */
  predicate Undisturbing(w: World, s: Router, e: Event, wid: string) {
    && !(e.RemoveNs? && e.vns == w.vnsOf(wid))
    && !(e.Handout? && e.wid == wid)
    && !((e.Delete? || e.Finish?) && e.id in s.flights && s.flights[e.id].wid == wid)
  }

  predicate UndisturbedRun(w: World, s: Router, es: seq<Event>, wid: string)
    requires IsRun(w, s, es)
    decreases |es|
  {
    es == [] || (Undisturbing(w, s, es[0], wid) && UndisturbedRun(w, Step(w, s, es[0]), es[1..], wid))
  }

  function NewSlots(w: World, e: Event, wid: string): set<string> {
    if e.AddNs? && e.vns == w.vnsOf(wid) then {Build(e.name, e.address)} else {}
  }

  function AddedSlots(w: World, es: seq<Event>, wid: string): set<string> {
    if es == [] then {} else NewSlots(w, es[0], wid) + AddedSlots(w, es[1..], wid)
  }

  lemma PlaceStays(w: World, s: Router, e: Event, wid: string)
    requires Enabled(w, s, e) && !((e.AddNs? || e.RemoveNs?) && e.vns == w.vnsOf(wid))
    ensures Place(w, Step(w, s, e), wid) == Place(w, s, wid)
  {
  }

  lemma PlaceWithin(w: World, s: Router, e: Event, wid: string, allowed: set<string>)
    requires Enabled(w, s, e) && RegistrySound(w, s) && Undisturbing(w, s, e, wid)
    requires Place(w, s, wid) in allowed
    ensures Place(w, Step(w, s, e), wid) in allowed + NewSlots(w, e, wid)
  {
    if e.AddNs? && e.vns == w.vnsOf(wid) {
      PlaceAfterAddition(w, s, e, wid);
    } else {
      PlaceStays(w, s, e, wid);
    }
  }

  lemma PlaceAfterAddition(w: World, s: Router, e: Event, wid: string)
    requires Enabled(w, s, e) && RegistrySound(w, s) && e.AddNs? && e.vns == w.vnsOf(wid)
    ensures Place(w, Step(w, s, e), wid) in {Place(w, s, wid), Build(e.name, e.address)}
  {
    Rings.AddIsMonotone(w.hash, w.nodes, s.registry[e.vns].ring, Build(e.name, e.address), wid);
  }

  lemma FlightWithinMore(f: Flight, allowed: set<string>, more: set<string>)
    requires FlightWithin(f, allowed)
    ensures FlightWithin(f, allowed + more)
  {
    if f.Routed? {
      var slot :| slot in allowed && Parse(slot) == Some(f.home);
      assert slot in allowed + more;
    }
  }

  lemma FlightWithinStep(w: World, s: Router, e: Event, wid: string, allowed: set<string>, id: nat)
    requires Enabled(w, s, e) && Undisturbing(w, s, e, wid) && Within(w, s, wid, allowed)
    requires id in Step(w, s, e).flights && Step(w, s, e).flights[id].wid == wid
    ensures FlightWithin(Step(w, s, e).flights[id], allowed)
  {
    ParseEmpty();
  }

  lemma CachedWithinStep(w: World, s: Router, e: Event, wid: string, allowed: set<string>)
    requires Enabled(w, s, e) && Undisturbing(w, s, e, wid) && Within(w, s, wid, allowed)
    ensures Cached(Step(w, s, e), wid) in allowed + {""}
  {
  }

  lemma WithinStep(w: World, s: Router, e: Event, wid: string, allowed: set<string>)
    requires Enabled(w, s, e) && RegistrySound(w, s) && Undisturbing(w, s, e, wid)
    requires Within(w, s, wid, allowed)
    ensures Within(w, Step(w, s, e), wid, allowed + NewSlots(w, e, wid))
  {
    var s', more := Step(w, s, e), NewSlots(w, e, wid);
    PlaceWithin(w, s, e, wid, allowed);
    CachedWithinStep(w, s, e, wid, allowed);
    forall id | id in s'.flights && s'.flights[id].wid == wid ensures FlightWithin(s'.flights[id], allowed + more) {
      FlightWithinStep(w, s, e, wid, allowed, id);
      FlightWithinMore(s'.flights[id], allowed, more);
    }
  }

  lemma {:induction false} WithinRun(w: World, s: Router, es: seq<Event>, wid: string, allowed: set<string>)
    requires IsRun(w, s, es) && RegistrySound(w, s) && UndisturbedRun(w, s, es, wid)
    requires Within(w, s, wid, allowed)
    ensures Within(w, After(w, s, es), wid, allowed + AddedSlots(w, es, wid))
    decreases |es|
  {
    if es == [] {
      assert allowed + {} == allowed;
    } else {
      WithinStep(w, s, es[0], wid, allowed);
      SoundStep(w, s, es[0]);
      WithinRun(w, Step(w, s, es[0]), es[1..], wid, allowed + NewSlots(w, es[0], wid));
      assert allowed + NewSlots(w, es[0], wid) + AddedSlots(w, es[1..], wid) == allowed + AddedSlots(w, es, wid);
    }
  }

  ghost predicate Untouched(s: Router, wid: string) {
    Cached(s, wid) == "" && forall id :: id in s.flights ==> s.flights[id].wid != wid
  }

  /** Any number of overlapping resolves of an id with no entry, with additions in between: each
      that looked the ring up holds the old owner or an added slot, each that is routed, by its own
      lookup or by a hit on another's entry, goes to one of them, and so does the entry. */
  lemma OverlappingResults(w: World, s: Router, es: seq<Event>, wid: string)
    requires IsRun(w, s, es) && RegistrySound(w, s) && UndisturbedRun(w, s, es, wid) && Untouched(s, wid)
    ensures var t, slots := After(w, s, es), {Place(w, s, wid)} + AddedSlots(w, es, wid);
            && Cached(t, wid) in slots + {""}
            && forall id :: id in t.flights && t.flights[id].wid == wid ==> FlightWithin(t.flights[id], slots)
  {
    WithinRun(w, s, es, wid, {Place(w, s, wid)});
  }

  lemma CachedStaysStep(w: World, s: Router, e: Event, wid: string, slot: string)
    requires Enabled(w, s, e) && Undisturbing(w, s, e, wid) && Cached(s, wid) == slot
    requires forall id :: id in s.flights && s.flights[id].wid == wid ==> FlightWithin(s.flights[id], {slot})
    ensures Cached(Step(w, s, e), wid) == slot
  {
    if (e.Put? || e.PollPut?) && s.flights[e.id].wid == wid { assert FlightWithin(s.flights[e.id], {slot}); }
  }

  lemma {:induction false} CachedStays(w: World, s: Router, es: seq<Event>, wid: string, slot: string)
    requires IsRun(w, s, es) && RegistrySound(w, s) && UndisturbedRun(w, s, es, wid)
    requires AddedSlots(w, es, wid) == {} && Within(w, s, wid, {slot}) && Cached(s, wid) == slot
    ensures Cached(After(w, s, es), wid) == slot
    decreases |es|
  {
    if es != [] {
      WithinStep(w, s, es[0], wid, {slot});
      assert NewSlots(w, es[0], wid) == {} && AddedSlots(w, es[1..], wid) == {};
      assert {slot} + {} == {slot};
      SoundStep(w, s, es[0]);
      CachedStaysStep(w, s, es[0], wid, slot);
      CachedStays(w, Step(w, s, es[0]), es[1..], wid, slot);
    }
  }

  /** With no addition either, all overlapping resolves return the same slot and leave it cached. */
  lemma OverlappingAgree(w: World, s: Router, es: seq<Event>, id: nat, later: seq<Event>, wid: string)
    requires IsRun(w, s, es) && RegistrySound(w, s) && UndisturbedRun(w, s, es, wid) && Untouched(s, wid)
    requires Enabled(w, After(w, s, es), Put(id)) && After(w, s, es).flights[id].wid == wid
    requires IsRun(w, Step(w, After(w, s, es), Put(id)), later)
    requires UndisturbedRun(w, Step(w, After(w, s, es), Put(id)), later, wid)
    requires AddedSlots(w, es, wid) == {} && AddedSlots(w, later, wid) == {}
    ensures After(w, s, es).flights[id].slot == Place(w, s, wid)
    ensures Cached(After(w, Step(w, After(w, s, es), Put(id)), later), wid) == Place(w, s, wid)
  {
    var p, mid := Place(w, s, wid), After(w, s, es);
    WithinRun(w, s, es, wid, {p});
    assert {p} + AddedSlots(w, es, wid) == {p};
    SoundRun(w, s, es);
    WithinStep(w, mid, Put(id), wid, {p});
    assert {p} + NewSlots(w, Put(id), wid) == {p};
    SoundStep(w, mid, Put(id));
    CachedStays(w, Step(w, mid, Put(id)), later, wid, p);
  }

  lemma {:induction false} SoundRun(w: World, s: Router, es: seq<Event>)
    requires IsRun(w, s, es) && RegistrySound(w, s)
    ensures RegistrySound(w, After(w, s, es))
    decreases |es|
  {
    if es != [] {
      SoundStep(w, s, es[0]);
      SoundRun(w, Step(w, s, es[0]), es[1..]);
    }
  }

  // ---------- when a placement moves under a pending request ----------

  lemma UnmovedIsCalm(w: World, s: Router, e: Event, wid: string)
    requires Enabled(w, s, e) && Admin(e) && Agreed(w, s, wid) && Place(w, Step(w, s, e), wid) == Place(w, s, wid)
    ensures Calm(w, s, e, wid)
  {
    AgreedSplit(w, s, wid);
  }

  /** Adding a namespace is calm for every id except those whose placement moves to it. */
  lemma AdditionIsCalm(w: World, s: Router, e: Event, wid: string)
    requires Enabled(w, s, e) && e.AddNs? && RegistrySound(w, s) && Agreed(w, s, wid)
    requires Place(w, Step(w, s, e), wid) != Build(e.name, e.address)
    ensures Calm(w, s, e, wid)
  {
    if e.vns == w.vnsOf(wid) { PlaceAfterAddition(w, s, e, wid); } else { PlaceStays(w, s, e, wid); }
    UnmovedIsCalm(w, s, e, wid);
  }

  // ---------- answers that are written late ----------

  /** Whether slot ends up cordoned on v: as its last addition or removal says, or as it was. */
  predicate EndsCordoned(es: seq<Event>, v: string, slot: string, was: bool) {
    if es == [] then was else
      var e := es[0];
      var concerns := (e.AddNs? || e.RemoveNs?) && e.vns == v && Build(e.name, e.address) == slot;
      EndsCordoned(es[1..], v, slot, if concerns then e.RemoveNs? else was)
  }

  predicate CordonedOn(s: Router, v: string, slot: string) {
    v in s.registry && slot in s.registry[v].statuses && s.registry[v].statuses[slot] == Cordoned
  }

  lemma {:induction false} StatusAfter(w: World, s: Router, es: seq<Event>, v: string, slot: string)
    requires IsRun(w, s, es) && v in s.registry && slot in s.registry[v].statuses
    ensures v in After(w, s, es).registry && slot in After(w, s, es).registry[v].statuses
    ensures CordonedOn(After(w, s, es), v, slot) <==> EndsCordoned(es, v, slot, CordonedOn(s, v, slot))
    decreases |es|
  {
    if es != [] { StatusAfter(w, Step(w, s, es[0]), es[1..], v, slot); }
  }

  lemma {:induction false} AnswerWaits(w: World, s: Router, es: seq<Event>, id: nat)
    requires IsRun(w, s, es) && id in s.flights && s.flights[id].Looked? && Put(id) !in es
    ensures id in After(w, s, es).flights && After(w, s, es).flights[id] == s.flights[id]
    decreases |es|
  {
    if es != [] {
      assert es[0] != Put(id);
      AnswerWaits(w, Step(w, s, es[0]), es[1..], id);
    }
  }

  /** A miss looks up the ring and writes the answer after any run of other steps: what it writes
      is active at that moment if and only if the last addition or removal of the slot since the
      lookup, if there was one, is not a removal. */
  lemma LateAnswer(w: World, s: Router, id: nat, es: seq<Event>)
    requires RegistrySound(w, s) && Enabled(w, s, Lookup(id)) && Place(w, s, s.flights[id].wid) != ""
    requires IsRun(w, Step(w, s, Lookup(id)), es) && Put(id) !in es
    ensures var t, wid := After(w, Step(w, s, Lookup(id)), es), s.flights[id].wid;
            var v, slot := w.vnsOf(wid), Place(w, s, wid);
            && Enabled(w, t, Put(id)) && Cached(Step(w, t, Put(id)), wid) == slot
            && v in t.registry && slot in t.registry[v].statuses
            && (t.registry[v].statuses[slot] == Active <==> !EndsCordoned(es, v, slot, false))
  {
    var v, slot := w.vnsOf(s.flights[id].wid), Place(w, s, s.flights[id].wid);
    PlacementIsActive(w.hash, w.nodes, s.registry[v], s.flights[id].wid);
    StatusAfter(w, Step(w, s, Lookup(id)), es, v, slot);
    AnswerWaits(w, Step(w, s, Lookup(id)), es, id);
  }
}
