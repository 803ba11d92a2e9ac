/**
  When do interleaved requests stay on one home?  For each workflow id, collect every home some
  request may still be sent to ("claims").  The claims agree exactly when no calm continuation
  breaks a promise, and a step keeps them in agreement exactly when it is calm.
 */
module RoutingSafety {
  import opened Options
  import opened PhysicalNames
  import opened Routing

  // ---------- claims ----------

  predicate FlightClaims(f: Flight, wid: string, home: Namespace) {
    f.wid == wid &&
    match f
    case Missed(_, _) => false
    case Looked(_, _, slot) => Parse(slot) == Some(home)
    case Routed(_, _, at) => at == home
    case Dropped(_, at) => at == home
    case Polled(_, slot) => Parse(slot) == Some(home)
  }

  /** The request is going to consult the ring, or to blank the cache entry. */
  predicate WillLook(f: Flight, wid: string) {
    f.wid == wid && (f.Missed? || ((f.Looked? || f.Polled?) && f.slot == ""))
  }

  ghost predicate Recorded(s: Router, wid: string, home: Namespace) {
    || (wid, home) in s.open
    || Parse(Cached(s, wid)) == Some(home)
    || exists id :: id in s.flights && FlightClaims(s.flights[id], wid, home)
  }

  /** Some request for wid may still be answered by the ring. */
  ghost predicate Exposed(s: Router, wid: string) {
    Cached(s, wid) == "" || exists id :: id in s.flights && WillLook(s.flights[id], wid)
  }

  ghost predicate Claim(w: World, s: Router, wid: string, home: Namespace) {
    Recorded(s, wid, home) || (Exposed(s, wid) && Parse(Place(w, s, wid)) == Some(home))
  }

  ghost predicate Agreed(w: World, s: Router, wid: string) {
    forall a, b :: Claim(w, s, wid, a) && Claim(w, s, wid, b) ==> a == b
  }

  // ---------- calm steps ----------

  /** Nobody but flight `id` holds a home for wid once its completion has been handled. */
  ghost predicate LastTrace(s: Router, id: nat, wid: string, accepted: bool)
    requires id in s.flights && s.flights[id].Routed?
  {
    && ((wid, s.flights[id].home) in s.open ==> accepted)
    && forall other, home :: other in s.flights && other != id ==> !FlightClaims(s.flights[other], wid, home)
  }

  /**
    An admin call is calm for wid unless it moves the placement of an id that is exposed and has
    a home on record.  A completion is calm unless it blanks the cache entry of an id whose
    placement has moved away from its home while traces of that home remain.  All else is calm.
   */
  ghost predicate Calm(w: World, s: Router, e: Event, wid: string)
    requires Enabled(w, s, e)
  {
    if Admin(e) then
      Exposed(s, wid) ==>
        forall home :: Recorded(s, wid, home) ==> Parse(Place(w, Step(w, s, e), wid)) in {None, Some(home)}
    else if e.Delete? && s.flights[e.id].wid == wid then
      Parse(Place(w, s, wid)) in {None, Some(s.flights[e.id].home)}
    else if e.Finish? && s.flights[e.id].wid == wid then
      Parse(Place(w, s, wid)) in {None, Some(s.flights[e.id].home)} || LastTrace(s, e.id, wid, e.accepted)
    else true
  }

  // ---------- steps ----------

  lemma ParseEmpty()
    ensures Parse("") == None
  {
  }

  /** Neither an admin call nor a completion of wid. */
  predicate Ordinary(s: Router, e: Event, wid: string) {
    !Admin(e) && ((e.Delete? || e.Finish?) && e.id in s.flights ==> s.flights[e.id].wid != wid)
  }

  lemma FlightShrinks(w: World, s: Router, e: Event, wid: string, id: nat, home: Namespace)
    requires Enabled(w, s, e) && Ordinary(s, e, wid)
    requires id in Step(w, s, e).flights && FlightClaims(Step(w, s, e).flights[id], wid, home)
    ensures Claim(w, s, wid, home)
  {
    ParseEmpty();
    if id in s.flights {
      assert FlightClaims(s.flights[id], wid, home) || WillLook(s.flights[id], wid);
    }
  }

  lemma ExposureShrinks(w: World, s: Router, e: Event, wid: string)
    requires Enabled(w, s, e) && Ordinary(s, e, wid)
    requires Exposed(Step(w, s, e), wid)
    ensures Exposed(s, wid)
  {
    var s' := Step(w, s, e);
    if Cached(s', wid) == "" {
      if Cached(s, wid) != "" {
        assert WillLook(s.flights[e.id], wid);
      }
    } else {
      var id :| id in s'.flights && WillLook(s'.flights[id], wid);
      assert id in s.flights ==> WillLook(s.flights[id], wid);
    }
  }

  lemma OrdinaryStepShrinks(w: World, s: Router, e: Event, wid: string, home: Namespace)
    requires Enabled(w, s, e) && Ordinary(s, e, wid)
    requires Claim(w, Step(w, s, e), wid, home)
    ensures Claim(w, s, wid, home)
  {
    ParseEmpty();
    var s' := Step(w, s, e);
    if Exposed(s', wid) {
      ExposureShrinks(w, s, e, wid);
    }
    if (wid, home) in s'.open && (wid, home) !in s.open {
      assert FlightClaims(s.flights[e.id], wid, home);
    } else if Parse(Cached(s', wid)) == Some(home) && Cached(s', wid) != Cached(s, wid) {
      assert FlightClaims(s.flights[e.id], wid, home);
    } else if exists id :: id in s'.flights && FlightClaims(s'.flights[id], wid, home) {
      var id :| id in s'.flights && FlightClaims(s'.flights[id], wid, home);
      FlightShrinks(w, s, e, wid, id, home);
    }
  }

  ghost predicate RecordsAgree(s: Router, wid: string) {
    forall a, b :: Recorded(s, wid, a) && Recorded(s, wid, b) ==> a == b
  }

  /** The ring's answer contradicts no record. */
  ghost predicate PlaceFits(w: World, s: Router, wid: string) {
    forall home :: Recorded(s, wid, home) ==> Parse(Place(w, s, wid)) in {None, Some(home)}
  }

  lemma AgreedSplit(w: World, s: Router, wid: string)
    ensures Agreed(w, s, wid) <==> RecordsAgree(s, wid) && (Exposed(s, wid) ==> PlaceFits(w, s, wid))
  {
    if Agreed(w, s, wid) {
      forall a, b | Recorded(s, wid, a) && Recorded(s, wid, b) ensures a == b {
        assert Claim(w, s, wid, a) && Claim(w, s, wid, b);
      }
      forall home | Exposed(s, wid) && Recorded(s, wid, home)
        ensures Parse(Place(w, s, wid)) in {None, Some(home)}
      {
        assert Claim(w, s, wid, home);
        if Parse(Place(w, s, wid)).Some? { assert Claim(w, s, wid, Parse(Place(w, s, wid)).value); }
      }
    } else {
      var a, b :| Claim(w, s, wid, a) && Claim(w, s, wid, b) && a != b;
      assert Recorded(s, wid, a) || Recorded(s, wid, b);
    }
  }

  lemma AdminExact(w: World, s: Router, e: Event, wid: string)
    requires Enabled(w, s, e) && Agreed(w, s, wid) && Admin(e)
    ensures Agreed(w, Step(w, s, e), wid) <==> Calm(w, s, e, wid)
  {
    var s' := Step(w, s, e);
    assert forall home :: Recorded(s', wid, home) <==> Recorded(s, wid, home);
    assert Exposed(s', wid) <==> Exposed(s, wid);
    AgreedSplit(w, s, wid);
    AgreedSplit(w, s', wid);
  }

  lemma CompletionRecords(w: World, s: Router, e: Event, wid: string, home: Namespace)
    requires Enabled(w, s, e) && (e.Delete? || e.Finish?) && s.flights[e.id].wid == wid
    requires Recorded(Step(w, s, e), wid, home)
    ensures Recorded(s, wid, home)
    ensures e.Finish? ==> !LastTrace(s, e.id, wid, e.accepted) || home != s.flights[e.id].home
  {
    ParseEmpty();
    var s' := Step(w, s, e);
    if (wid, home) !in s'.open {
      var id :| id in s'.flights && FlightClaims(s'.flights[id], wid, home);
      assert FlightClaims(s.flights[id], wid, home);
    }
  }

  lemma DeleteExact(w: World, s: Router, e: Event, wid: string)
    requires Enabled(w, s, e) && Agreed(w, s, wid) && e.Delete? && s.flights[e.id].wid == wid
    ensures Agreed(w, Step(w, s, e), wid) <==> Calm(w, s, e, wid)
  {
    var s', home := Step(w, s, e), s.flights[e.id].home;
    AgreedSplit(w, s, wid);
    AgreedSplit(w, s', wid);
    assert FlightClaims(s.flights[e.id], wid, home);
    assert FlightClaims(s'.flights[e.id], wid, home);
    assert Recorded(s, wid, home) && Recorded(s', wid, home);
    assert Cached(s', wid) == "";
    forall a | Recorded(s', wid, a) ensures a == home {
      CompletionRecords(w, s, e, wid, a);
    }
  }

  lemma FinishExact(w: World, s: Router, e: Event, wid: string)
    requires Enabled(w, s, e) && Agreed(w, s, wid) && e.Finish? && s.flights[e.id].wid == wid
    ensures Agreed(w, Step(w, s, e), wid) <==> Calm(w, s, e, wid)
  {
    var s', home := Step(w, s, e), s.flights[e.id].home;
    AgreedSplit(w, s, wid);
    AgreedSplit(w, s', wid);
    assert FlightClaims(s.flights[e.id], wid, home);
    assert Recorded(s, wid, home);
    assert Cached(s', wid) == "";
    forall a | Recorded(s', wid, a) ensures a == home && !LastTrace(s, e.id, wid, e.accepted) {
      CompletionRecords(w, s, e, wid, a);
    }
    if !LastTrace(s, e.id, wid, e.accepted) {
      if (wid, home) !in s'.open {
        var other, a :| other in s.flights && other != e.id && FlightClaims(s.flights[other], wid, a);
        assert FlightClaims(s'.flights[other], wid, a);
        assert Recorded(s, wid, a);
      }
      assert Recorded(s', wid, home);
    }
  }

  /** The claims stay in agreement exactly when the step is calm. */
  lemma StepExact(w: World, s: Router, e: Event, wid: string)
    requires Enabled(w, s, e) && Agreed(w, s, wid)
    ensures Agreed(w, Step(w, s, e), wid) <==> Calm(w, s, e, wid)
  {
    if Admin(e) {
      AdminExact(w, s, e, wid);
    } else if e.Delete? && s.flights[e.id].wid == wid {
      DeleteExact(w, s, e, wid);
    } else if e.Finish? && s.flights[e.id].wid == wid {
      FinishExact(w, s, e, wid);
    } else {
      forall home | Claim(w, Step(w, s, e), wid, home) ensures Claim(w, s, wid, home) {
        OrdinaryStepShrinks(w, s, e, wid, home);
      }
    }
  }

  // ---------- runs ----------

  ghost predicate CalmRun(w: World, s: Router, es: seq<Event>, wid: string)
    requires IsRun(w, s, es)
    decreases |es|
  {
    es == [] || (Calm(w, s, es[0], wid) && CalmRun(w, Step(w, s, es[0]), es[1..], wid))
  }

  lemma AgreedIsNotBroken(w: World, s: Router, wid: string)
    requires Agreed(w, s, wid)
    ensures !Broken(w, s, wid)
  {
    forall a, b | (wid, a) in s.open && (wid, b) in s.open ensures a == b {
      assert Claim(w, s, wid, a) && Claim(w, s, wid, b);
    }
    forall e, home, a | Sends(s, e, wid, home) && (wid, a) in s.open ensures a == home {
      assert FlightClaims(s.flights[e.id], wid, home);
      assert Claim(w, s, wid, a) && Claim(w, s, wid, home);
    }
  }

  /** Safety over every calm run: from agreement, the workflow stays on one home and every
      request for it that is about to be sent goes to the home where it is open. */
  lemma {:induction false} CalmRunsAreSafe(w: World, s: Router, es: seq<Event>, wid: string)
    requires IsRun(w, s, es) && CalmRun(w, s, es, wid) && Agreed(w, s, wid)
    ensures Agreed(w, After(w, s, es), wid)
    ensures !Broken(w, After(w, s, es), wid)
    decreases |es|
  {
    if es == [] {
      AgreedIsNotBroken(w, s, wid);
    } else {
      StepExact(w, s, es[0], wid);
      CalmRunsAreSafe(w, Step(w, s, es[0]), es[1..], wid);
    }
  }

  // ---------- necessity ----------

  /** Some calm continuation breaks a promise. */
  ghost predicate Endangered(w: World, s: Router, wid: string) {
    exists es :: IsRun(w, s, es) && CalmRun(w, s, es, wid) && Broken(w, After(w, s, es), wid)
  }

  lemma BrokenNow(w: World, s: Router, wid: string)
    requires Broken(w, s, wid)
    ensures Endangered(w, s, wid)
  {
    assert IsRun(w, s, []) && CalmRun(w, s, [], wid) && After(w, s, []) == s;
  }

  lemma EndangeredBefore(w: World, s: Router, e: Event, wid: string)
    requires Enabled(w, s, e) && Calm(w, s, e, wid) && Endangered(w, Step(w, s, e), wid)
    ensures Endangered(w, s, wid)
  {
    var s' := Step(w, s, e);
    var es :| IsRun(w, s', es) && CalmRun(w, s', es, wid) && Broken(w, After(w, s', es), wid);
    var all := [e] + es;
    assert all[0] == e && all[1..] == es;
    assert IsRun(w, s, all) && CalmRun(w, s, all, wid) && After(w, s, all) == After(w, s', es);
  }

  lemma {:induction false} FreshId(ids: set<nat>) returns (id: nat)
    ensures id !in ids && forall x :: x in ids ==> x < id
    decreases ids
  {
    if ids == {} { return 0; }
    var x :| x in ids;
    var y := FreshId(ids - {x});
    id := if x < y then y else x + 1;
    assert forall z :: z in ids ==> z == x || z in ids - {x};
  }

  /** A request that is routed away from where the workflow is open breaks the promise. */
  lemma RoutedElsewhere(w: World, s: Router, wid: string, id: nat, a: Namespace)
    requires (wid, a) in s.open && id in s.flights
    requires s.flights[id].Routed? || s.flights[id].Dropped?
    requires s.flights[id].wid == wid && s.flights[id].home != a
    ensures Endangered(w, s, wid)
  {
    var f := s.flights[id];
    var e := if f.Dropped? then Close(id, true) else if f.kind == Complete then Finish(id, true) else Forward(id, true);
    assert Enabled(w, s, e) && Sends(s, e, wid, f.home);
    assert Misroutes(s, e, wid);
    BrokenNow(w, s, wid);
  }

  lemma LookedElsewhere(w: World, s: Router, wid: string, id: nat, a: Namespace, b: Namespace)
    requires (wid, a) in s.open && a != b && id in s.flights && s.flights[id].Looked?
    requires s.flights[id].wid == wid && Parse(s.flights[id].slot) == Some(b)
    ensures Endangered(w, s, wid)
  {
    RoutedElsewhere(w, Step(w, s, Put(id)), wid, id, a);
    EndangeredBefore(w, s, Put(id), wid);
  }

  lemma CachedElsewhere(w: World, s: Router, wid: string, a: Namespace, b: Namespace)
    requires (wid, a) in s.open && a != b && Parse(Cached(s, wid)) == Some(b)
    ensures Endangered(w, s, wid)
  {
    ParseEmpty();
    var id := FreshId(s.flights.Keys);
    var e := Begin(id, Touch, wid);
    RoutedElsewhere(w, Step(w, s, e), wid, id, a);
    EndangeredBefore(w, s, e, wid);
  }

  lemma MissedElsewhere(w: World, s: Router, wid: string, id: nat, a: Namespace, b: Namespace)
    requires (wid, a) in s.open && a != b && Parse(Place(w, s, wid)) == Some(b)
    requires id in s.flights && s.flights[id].Missed? && s.flights[id].wid == wid
    ensures Endangered(w, s, wid)
  {
    ParseEmpty();
    LookedElsewhere(w, Step(w, s, Lookup(id)), wid, id, a, b);
    EndangeredBefore(w, s, Lookup(id), wid);
  }

  lemma UncachedElsewhere(w: World, s: Router, wid: string, a: Namespace, b: Namespace)
    requires (wid, a) in s.open && a != b && Parse(Place(w, s, wid)) == Some(b) && Cached(s, wid) == ""
    ensures Endangered(w, s, wid)
  {
    var id := FreshId(s.flights.Keys);
    var e := Begin(id, Touch, wid);
    MissedElsewhere(w, Step(w, s, e), wid, id, a, b);
    EndangeredBefore(w, s, e, wid);
  }

  lemma FlightElsewhere(w: World, s: Router, wid: string, id: nat, a: Namespace, b: Namespace)
    requires (wid, a) in s.open && a != b && id in s.flights
    requires FlightClaims(s.flights[id], wid, b) ||
             (WillLook(s.flights[id], wid) && Parse(Place(w, s, wid)) == Some(b))
    ensures Endangered(w, s, wid)
  {
    ParseEmpty();
    var f := s.flights[id];
    if f.Missed? {
      MissedElsewhere(w, s, wid, id, a, b);
    } else if f.Routed? || f.Dropped? {
      RoutedElsewhere(w, s, wid, id, a);
    } else {
      var e := if f.Looked? then Put(id) else PollPut(id);
      if f.slot == "" {
        UncachedElsewhere(w, Step(w, s, e), wid, a, b);
      } else {
        CachedElsewhere(w, Step(w, s, e), wid, a, b);
      }
      EndangeredBefore(w, s, e, wid);
    }
  }

  lemma ClaimAgainstOpen(w: World, s: Router, wid: string, a: Namespace, b: Namespace)
    requires (wid, a) in s.open && a != b && Claim(w, s, wid, b)
    ensures Endangered(w, s, wid)
  {
    if (wid, b) in s.open {
      BrokenNow(w, s, wid);
    } else if Parse(Cached(s, wid)) == Some(b) {
      CachedElsewhere(w, s, wid, a, b);
    } else if exists id :: id in s.flights && FlightClaims(s.flights[id], wid, b) {
      var id :| id in s.flights && FlightClaims(s.flights[id], wid, b);
      FlightElsewhere(w, s, wid, id, a, b);
    } else if Cached(s, wid) == "" {
      UncachedElsewhere(w, s, wid, a, b);
    } else {
      var id :| id in s.flights && WillLook(s.flights[id], wid);
      FlightElsewhere(w, s, wid, id, a, b);
    }
  }

  /** What a new request for wid would be sent to. */
  function Resolution(w: World, s: Router, wid: string): Option<Namespace> {
    Parse(if Cached(s, wid) != "" then Cached(s, wid) else Place(w, s, wid))
  }

  lemma StartOnHit(w: World, s: Router, wid: string, id: nat, a: Namespace, b: Namespace)
    requires id !in s.flights && Parse(Cached(s, wid)) == Some(a) && a != b && Claim(w, s, wid, b)
    ensures Endangered(w, s, wid)
  {
    ParseEmpty();
    var s1 := Step(w, s, Begin(id, Start, wid));
    var s2 := Step(w, s1, Forward(id, true));
    assert s2.flights == s.flights;
    assert s2 == s.(open := s.open + {(wid, a)});
    ClaimAgainstOpen(w, s2, wid, a, b);
    EndangeredBefore(w, s1, Forward(id, true), wid);
    EndangeredBefore(w, s, Begin(id, Start, wid), wid);
  }

  /** The state a start leaves behind when it misses the cache and nothing interrupts it. */
  lemma MissedStart(w: World, s: Router, wid: string, id: nat, a: Namespace)
    requires id !in s.flights && Cached(s, wid) == "" && Parse(Place(w, s, wid)) == Some(a)
    ensures Enabled(w, s, Begin(id, Start, wid))
    ensures var s1 := Step(w, s, Begin(id, Start, wid));
            && Enabled(w, s1, Lookup(id))
            && var s2 := Step(w, s1, Lookup(id));
            && Enabled(w, s2, Put(id))
            && var s3 := Step(w, s2, Put(id));
            && Enabled(w, s3, Forward(id, true))
            && Step(w, s3, Forward(id, true)) ==
               s.(open := s.open + {(wid, a)}, cache := s.cache[wid := Place(w, s, wid)])
  {
    ParseEmpty();
    var s1 := Step(w, s, Begin(id, Start, wid));
    var s2 := Step(w, s1, Lookup(id));
    assert s2 == s.(flights := s.flights[id := Looked(Start, wid, Place(w, s, wid))]);
    var s3 := Step(w, s2, Put(id));
    assert s3.flights == s.flights[id := Routed(Start, wid, a)];
    assert s3.flights - {id} == s.flights;
  }

  lemma StartOnMiss(w: World, s: Router, wid: string, id: nat, a: Namespace, b: Namespace)
    requires id !in s.flights && Cached(s, wid) == "" && Parse(Place(w, s, wid)) == Some(a)
    requires a != b && Claim(w, s, wid, b)
    ensures Endangered(w, s, wid)
  {
    MissedStart(w, s, wid, id, a);
    var s1 := Step(w, s, Begin(id, Start, wid));
    var s2 := Step(w, s1, Lookup(id));
    var s3 := Step(w, s2, Put(id));
    assert Endangered(w, Step(w, s3, Forward(id, true)), wid) by {
      ParseEmpty();
      ClaimAgainstOpen(w, s.(open := s.open + {(wid, a)}, cache := s.cache[wid := Place(w, s, wid)]), wid, a, b);
    }
    EndangeredBefore(w, s3, Forward(id, true), wid);
    EndangeredBefore(w, s2, Put(id), wid);
    EndangeredBefore(w, s1, Lookup(id), wid);
    EndangeredBefore(w, s, Begin(id, Start, wid), wid);
  }

  /** No calm continuation of a state in agreement breaks a promise ... */
  lemma AgreedIsNotEndangered(w: World, s: Router, wid: string)
    requires Agreed(w, s, wid)
    ensures !Endangered(w, s, wid)
  {
    forall es | IsRun(w, s, es) && CalmRun(w, s, es, wid) ensures !Broken(w, After(w, s, es), wid) {
      CalmRunsAreSafe(w, s, es, wid);
    }
  }

  /** ... and where the claims disagree and a new request can be routed, some continuation does. */
  lemma DisagreementEndangers(w: World, s: Router, wid: string)
    requires !Agreed(w, s, wid) && Resolution(w, s, wid).Some?
    ensures Endangered(w, s, wid)
  {
    var a, b :| Claim(w, s, wid, a) && Claim(w, s, wid, b) && a != b;
    var id := FreshId(s.flights.Keys);
    var r := Resolution(w, s, wid).value;
    var c := if a != r then a else b;
    if Cached(s, wid) != "" { StartOnHit(w, s, wid, id, r, c); } else { StartOnMiss(w, s, wid, id, r, c); }
  }
}
