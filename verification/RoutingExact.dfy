/**
  When exactly can a promise be broken?  In every state the router can reach, and for every run
  from the start, with no condition on how requests interleave.
 */
module RoutingExact {
  import opened PhysicalNames
  import opened VirtualNamespaces
  import opened Routing
  import opened RoutingSafety
  import opened RoutingCoverage

  /** Every listed slot parses, since it was built from a name and an address. */
  ghost predicate Parsed(s: Router) {
    forall v, slot :: v in s.registry && slot in s.registry[v].statuses ==> Parse(slot).Some?
  }

  /** What holds in every reachable state. */
  ghost predicate Wholesome(w: World, s: Router) {
    Covered(w, s) && Parsed(s)
  }

  lemma ParsedStep(w: World, s: Router, e: Event)
    requires Enabled(w, s, e) && Parsed(s)
    ensures Parsed(Step(w, s, e))
  {
    if e.AddNs? { ParseBuild(e.name, e.address); }
  }

  lemma WholesomeStep(w: World, s: Router, e: Event)
    requires Enabled(w, s, e) && Wholesome(w, s)
    ensures Wholesome(w, Step(w, s, e))
  {
    CoveredStep(w, s, e);
    ParsedStep(w, s, e);
  }

  lemma {:induction false} WholesomeRun(w: World, s: Router, es: seq<Event>)
    requires IsRun(w, s, es) && Wholesome(w, s)
    ensures Wholesome(w, After(w, s, es))
    decreases |es|
  {
    if es != [] {
      WholesomeStep(w, s, es[0]);
      WholesomeRun(w, Step(w, s, es[0]), es[1..]);
    }
  }

  lemma CachedParses(w: World, s: Router, wid: string)
    requires Wholesome(w, s)
    ensures Cached(s, wid) != "" ==> Parse(Cached(s, wid)).Some?
  {
  }

  lemma PlaceParses(w: World, s: Router, wid: string)
    requires Wholesome(w, s)
    ensures Place(w, s, wid) != "" ==> Parse(Place(w, s, wid)).Some?
  {
    if w.vnsOf(wid) in s.registry { PlacementIsActive(w.hash, w.nodes, s.registry[w.vnsOf(wid)], wid); }
  }

  // ---------- whole runs ----------

  /** After a step that is not calm a new request for wid can be routed ... */
  lemma UncalmStepResolves(w: World, s: Router, e: Event, wid: string)
    requires Enabled(w, s, e) && Wholesome(w, s) && !Calm(w, s, e, wid)
    ensures Resolution(w, Step(w, s, e), wid).Some?
  {
    ParseEmpty();
    CachedParses(w, s, wid);
  }

  /** ... so that from agreement a step leads into danger exactly if it is not calm. */
  lemma UncalmStepEndangers(w: World, s: Router, e: Event, wid: string)
    requires Enabled(w, s, e) && Wholesome(w, s) && Agreed(w, s, wid)
    ensures Endangered(w, Step(w, s, e), wid) <==> !Calm(w, s, e, wid)
  {
    StepExact(w, s, e, wid);
    if Calm(w, s, e, wid) {
      AgreedIsNotEndangered(w, Step(w, s, e), wid);
    } else {
      UncalmStepResolves(w, s, e, wid);
      DisagreementEndangers(w, Step(w, s, e), wid);
    }
  }

  ghost predicate NeverEndangered(w: World, s: Router, es: seq<Event>, wid: string)
    requires IsRun(w, s, es)
    decreases |es|
  {
    !Endangered(w, s, wid) && (es == [] || NeverEndangered(w, Step(w, s, es[0]), es[1..], wid))
  }

  lemma {:induction false} CalmFromAgreement(w: World, s: Router, es: seq<Event>, wid: string)
    requires IsRun(w, s, es) && Wholesome(w, s) && Agreed(w, s, wid)
    ensures CalmRun(w, s, es, wid) <==> NeverEndangered(w, s, es, wid)
    decreases |es|
  {
    AgreedIsNotEndangered(w, s, wid);
    if es != [] {
      UncalmStepEndangers(w, s, es[0], wid);
      StepExact(w, s, es[0], wid);
      if Calm(w, s, es[0], wid) {
        WholesomeStep(w, s, es[0]);
        CalmFromAgreement(w, Step(w, s, es[0]), es[1..], wid);
      }
    }
  }

  lemma InitialIsAgreed(w: World, wid: string)
    ensures Wholesome(w, INITIAL) && Agreed(w, INITIAL, wid)
  {
    ParseEmpty();
  }

  /** Single home, exactly: in every run from the start, however requests, polls and admin calls
      interleave, all steps are calm for wid if and only if no state on the way is one from which
      calm steps can open wid twice or send a request for it to the wrong home. */
  lemma CalmIsExact(w: World, es: seq<Event>, wid: string)
    requires IsRun(w, INITIAL, es)
    ensures CalmRun(w, INITIAL, es, wid) <==> NeverEndangered(w, INITIAL, es, wid)
  {
    InitialIsAgreed(w, wid);
    CalmFromAgreement(w, INITIAL, es, wid);
  }

  // ---------- every reachable state ----------

  predicate OpensLater(f: Flight, wid: string) {
    f.wid == wid && ((f.Routed? && f.kind == Start) || ((f.Looked? || f.Polled?) && f.slot != ""))
  }

  /** The workflow is open, or a request that is new or on its way can still open it. */
  ghost predicate Openable(w: World, s: Router, wid: string) {
    || Resolution(w, s, wid).Some?
    || (exists home :: (wid, home) in s.open)
    || (exists id :: id in s.flights && OpensLater(s.flights[id], wid))
  }

  lemma OtherClaim(w: World, s: Router, wid: string, a: Namespace) returns (b: Namespace)
    requires !Agreed(w, s, wid)
    ensures Claim(w, s, wid, b) && b != a
  {
    var x, y :| Claim(w, s, wid, x) && Claim(w, s, wid, y) && x != y;
    b := if x != a then x else y;
  }

  lemma StartEndangers(w: World, s: Router, wid: string, id: nat)
    requires !Agreed(w, s, wid) && id in s.flights && s.flights[id].Routed?
    requires s.flights[id].kind == Start && s.flights[id].wid == wid
    ensures Endangered(w, s, wid)
  {
    var a, e := s.flights[id].home, Forward(id, true);
    var s' := Step(w, s, e);
    var b := OtherClaim(w, s, wid, a);
    assert forall x :: x in s.flights && x != id ==> x in s'.flights && s'.flights[x] == s.flights[x];
    assert Claim(w, s', wid, b);
    ClaimAgainstOpen(w, s', wid, a, b);
    EndangeredBefore(w, s, e, wid);
  }

  /** Without a route, what is claimed is recorded outside the cache. */
  lemma UnroutedClaims(w: World, s: Router, wid: string, b: Namespace)
    requires Wholesome(w, s) && Resolution(w, s, wid).None? && Claim(w, s, wid, b)
    ensures Cached(s, wid) == "" && Place(w, s, wid) == ""
    ensures (wid, b) in s.open || exists x :: x in s.flights && FlightClaims(s.flights[x], wid, b)
  {
    ParseEmpty();
    CachedParses(w, s, wid);
    PlaceParses(w, s, wid);
  }

  lemma WriteEndangers(w: World, s: Router, wid: string, id: nat)
    requires Wholesome(w, s) && !Agreed(w, s, wid) && Resolution(w, s, wid).None? && id in s.flights
    requires (s.flights[id].Looked? || s.flights[id].Polled?) && s.flights[id].wid == wid && s.flights[id].slot != ""
    ensures Endangered(w, s, wid)
  {
    var f := s.flights[id];
    assert FlightListed(w, s, f);
    var a, e := Parse(f.slot).value, if f.Looked? then Put(id) else PollPut(id);
    var s' := Step(w, s, e);
    var b := OtherClaim(w, s, wid, a);
    UnroutedClaims(w, s, wid, b);
    if (wid, b) !in s.open {
      var x :| x in s.flights && FlightClaims(s.flights[x], wid, b);
      assert x in s'.flights && FlightClaims(s'.flights[x], wid, b);
    }
    assert Claim(w, s', wid, a) && Claim(w, s', wid, b);
    DisagreementEndangers(w, s', wid);
    EndangeredBefore(w, s, e, wid);
  }

  lemma OpenableEndangers(w: World, s: Router, wid: string)
    requires Wholesome(w, s) && !Agreed(w, s, wid) && Openable(w, s, wid)
    ensures Endangered(w, s, wid)
  {
    if Resolution(w, s, wid).Some? {
      DisagreementEndangers(w, s, wid);
    } else if exists home :: (wid, home) in s.open {
      var a :| (wid, a) in s.open;
      var b := OtherClaim(w, s, wid, a);
      ClaimAgainstOpen(w, s, wid, a, b);
    } else {
      var id :| id in s.flights && OpensLater(s.flights[id], wid);
      if s.flights[id].Routed? { StartEndangers(w, s, wid, id); } else { WriteEndangers(w, s, wid, id); }
    }
  }

  /** A disagreement about a workflow that nothing can open stays harmless. */
  lemma InertAdmin(w: World, s: Router, e: Event, wid: string)
    requires Enabled(w, s, e) && Admin(e) && Calm(w, s, e, wid)
    requires Wholesome(w, s) && !Agreed(w, s, wid) && !Openable(w, s, wid)
    ensures !Openable(w, Step(w, s, e), wid)
  {
    var a, b :| Claim(w, s, wid, a) && Claim(w, s, wid, b) && a != b;
    UnroutedClaims(w, s, wid, a);
    UnroutedClaims(w, s, wid, b);
    assert Recorded(s, wid, a) && Recorded(s, wid, b);
    ParseEmpty();
  }

  lemma InertState(w: World, s: Router, e: Event, wid: string)
    requires Enabled(w, s, e) && !Admin(e)
    requires Cached(s, wid) == "" && !Openable(w, s, wid)
    ensures Cached(Step(w, s, e), wid) == "" && Place(w, Step(w, s, e), wid) == Place(w, s, wid)
    ensures forall home :: (wid, home) !in Step(w, s, e).open
  {
    if e.Put? || e.PollPut? || e.Forward? { assert !OpensLater(s.flights[e.id], wid); }
  }

  lemma InertFlight(w: World, s: Router, e: Event, wid: string, id: nat)
    requires Enabled(w, s, e) && !Admin(e) && id in Step(w, s, e).flights
    requires Cached(s, wid) == "" && Place(w, s, wid) == "" && !Openable(w, s, wid)
    ensures !OpensLater(Step(w, s, e).flights[id], wid)
  {
    ParseEmpty();
    if id in s.flights { assert !OpensLater(s.flights[id], wid); }
  }

  lemma InertStep(w: World, s: Router, e: Event, wid: string)
    requires Enabled(w, s, e) && !Admin(e)
    requires Cached(s, wid) == "" && Place(w, s, wid) == "" && !Openable(w, s, wid)
    ensures !Openable(w, Step(w, s, e), wid)
  {
    ParseEmpty();
    InertState(w, s, e, wid);
    forall id | id in Step(w, s, e).flights ensures !OpensLater(Step(w, s, e).flights[id], wid) {
      InertFlight(w, s, e, wid, id);
    }
  }

  lemma {:induction false} InertRun(w: World, s: Router, es: seq<Event>, wid: string)
    requires IsRun(w, s, es) && CalmRun(w, s, es, wid)
    requires Wholesome(w, s) && (Agreed(w, s, wid) || !Openable(w, s, wid))
    ensures !Broken(w, After(w, s, es), wid)
    decreases |es|
  {
    if Agreed(w, s, wid) {
      CalmRunsAreSafe(w, s, es, wid);
    } else if es != [] {
      if Admin(es[0]) {
        InertAdmin(w, s, es[0], wid);
      } else {
        var a :| Claim(w, s, wid, a);
        UnroutedClaims(w, s, wid, a);
        InertStep(w, s, es[0], wid);
      }
      WholesomeStep(w, s, es[0]);
      InertRun(w, Step(w, s, es[0]), es[1..], wid);
    }
  }

  /** In every reachable state calm steps can break a promise about wid if and only if the claims
      disagree and wid is open or can still be opened. */
  lemma AgreementIsExact(w: World, es: seq<Event>, wid: string)
    requires IsRun(w, INITIAL, es)
    ensures var s := After(w, INITIAL, es);
            Endangered(w, s, wid) <==> !Agreed(w, s, wid) && Openable(w, s, wid)
  {
    InitialIsAgreed(w, wid);
    WholesomeRun(w, INITIAL, es);
    var s := After(w, INITIAL, es);
    if !Agreed(w, s, wid) && Openable(w, s, wid) {
      OpenableEndangers(w, s, wid);
    } else {
      forall more | IsRun(w, s, more) && CalmRun(w, s, more, wid) ensures !Broken(w, After(w, s, more), wid) {
        InertRun(w, s, more, wid);
      }
    }
  }
}
