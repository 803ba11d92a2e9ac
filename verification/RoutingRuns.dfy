/**
  Runs of the router: the steps of a resolve add up to the Resolve call, and no state along a calm
  run is broken.
 */
module RoutingRuns {
  import opened Options
  import opened PhysicalNames
  import opened Routing
  import opened RoutingSafety
  import Resolvers

  // ---------- one resolve, uninterrupted ----------

  /** The steps of Resolve: read the cache, and on a miss ask the ring and write its answer. */
  function ResolveSteps(w: World, s: Router, id: nat, kind: Kind, wid: string): seq<Event> {
    if Cached(s, wid) != "" then [Begin(id, kind, wid)]
    else if w.vnsOf(wid) !in s.registry then [Begin(id, kind, wid), Lookup(id)]
    else [Begin(id, kind, wid), Lookup(id), Put(id)]
  }

  lemma RunCons(w: World, s: Router, e: Event, es: seq<Event>)
    requires Enabled(w, s, e) && IsRun(w, Step(w, s, e), es)
    ensures IsRun(w, s, [e] + es) && After(w, s, [e] + es) == After(w, Step(w, s, e), es)
  {
    assert ([e] + es)[0] == e && ([e] + es)[1..] == es;
  }

  lemma RunOne(w: World, s: Router, e: Event)
    requires Enabled(w, s, e)
    ensures IsRun(w, s, [e]) && After(w, s, [e]) == Step(w, s, e)
  {
    RunCons(w, s, e, []);
    assert [e] + [] == [e];
  }

  /** The request id is bound for `home`, or gone when there is none. */
  function Bound(flights: map<nat, Flight>, id: nat, kind: Kind, wid: string, home: Option<Namespace>):
    map<nat, Flight>
  {
    match home
    case None => flights
    case Some(at) => flights[id := Routed(kind, wid, at)]
  }

  lemma PutBinds(w: World, s: Router, id: nat, kind: Kind, wid: string, slot: string)
    requires id !in s.flights
    ensures var looked := s.(flights := s.flights[id := Looked(kind, wid, slot)]);
            Step(w, looked, Put(id)) ==
            s.(cache := s.cache[wid := slot], flights := Bound(s.flights, id, kind, wid, Parse(slot)))
  {
    assert s.flights[id := Looked(kind, wid, slot)] - {id} == s.flights;
  }

  lemma MissRun(w: World, s: Router, id: nat, kind: Kind, wid: string)
    requires id !in s.flights && Cached(s, wid) == "" && w.vnsOf(wid) in s.registry
    ensures var es := [Begin(id, kind, wid), Lookup(id), Put(id)];
            && IsRun(w, s, es)
            && After(w, s, es) == s.(cache := s.cache[wid := Place(w, s, wid)],
                                     flights := Bound(s.flights, id, kind, wid, Parse(Place(w, s, wid))))
  {
    var slot := Place(w, s, wid);
    var missed := s.(flights := s.flights[id := Missed(kind, wid)]);
    var looked := s.(flights := s.flights[id := Looked(kind, wid, slot)]);
    PutBinds(w, s, id, kind, wid, slot);
    RunOne(w, looked, Put(id));
    assert Step(w, missed, Lookup(id)) == looked;
    RunCons(w, missed, Lookup(id), [Put(id)]);
    RunCons(w, s, Begin(id, kind, wid), [Lookup(id)] + [Put(id)]);
    assert [Begin(id, kind, wid), Lookup(id), Put(id)] == [Begin(id, kind, wid)] + ([Lookup(id)] + [Put(id)]);
  }

  lemma UnknownRun(w: World, s: Router, id: nat, kind: Kind, wid: string)
    requires id !in s.flights && Cached(s, wid) == "" && w.vnsOf(wid) !in s.registry
    ensures var es := [Begin(id, kind, wid), Lookup(id)];
            IsRun(w, s, es) && After(w, s, es) == s
  {
    var missed := s.(flights := s.flights[id := Missed(kind, wid)]);
    assert missed.flights - {id} == s.flights;
    RunOne(w, missed, Lookup(id));
    RunCons(w, s, Begin(id, kind, wid), [Lookup(id)]);
    assert [Begin(id, kind, wid), Lookup(id)] == [Begin(id, kind, wid)] + [Lookup(id)];
  }

  /** The steps refine the Resolve call: uninterrupted, they write the cache as one call does, and
      leave the request bound for the namespace it returns, or gone if that does not parse. */
  lemma StepsRefineResolve(w: World, s: Router, id: nat, kind: Kind, wid: string, allocations: map<string, nat>)
    requires id !in s.flights
    ensures IsRun(w, s, ResolveSteps(w, s, id, kind, wid))
    ensures var place := Resolvers.Answer(w.hash, s.registry, wid, w.vnsOf(wid));
            var resolved := Resolvers.Resolved(Resolvers.Store(s.cache, allocations), wid, place);
            After(w, s, ResolveSteps(w, s, id, kind, wid)) ==
            s.(cache := resolved.cache, flights := Bound(s.flights, id, kind, wid, Resolution(w, s, wid)))
  {
    ParseEmpty();
    if Cached(s, wid) != "" {
      RunOne(w, s, Begin(id, kind, wid));
    } else if w.vnsOf(wid) !in s.registry {
      UnknownRun(w, s, id, kind, wid);
    } else {
      MissRun(w, s, id, kind, wid);
    }
  }

  /** The state right after a resolve. */
  function AfterResolve(w: World, s: Router, id: nat, kind: Kind, wid: string): Router {
    var place := Resolvers.Answer(w.hash, s.registry, wid, w.vnsOf(wid));
    var resolved := Resolvers.Resolved(Resolvers.Store(s.cache, map[]), wid, place);
    s.(cache := resolved.cache, flights := Bound(s.flights, id, kind, wid, Resolution(w, s, wid)))
  }

  /** The router's steps for one call on the resolver's side, with slots given by name and address. */
  function CallSteps(w: World, s: Router, id: nat, c: Resolvers.Call, name: string, address: string): seq<Event> {
    match c
    case Resolve(wid, _) => ResolveSteps(w, s, id, Touch, wid)
    case Create(v) => if v in s.registry then [] else [Create(v)]
    case Add(v, _) => if v in s.registry then [AddNs(v, name, address)] else []
    case Remove(v, _) => if v in s.registry then [RemoveNs(v, name, address)] else []
  }

  /** Uninterrupted steps do to the cache and the registry what the call does. */
  lemma CallIsRun(w: World, s: Router, id: nat, c: Resolvers.Call, name: string, address: string,
                  allocations: map<string, nat>)
    requires id !in s.flights && (c.Resolve? ==> c.vns == w.vnsOf(c.wid))
    requires c.Add? || c.Remove? ==> c.slot == Build(name, address)
    ensures IsRun(w, s, CallSteps(w, s, id, c, name, address))
    ensures var t := After(w, s, CallSteps(w, s, id, c, name, address));
            var sys := Resolvers.System(Resolvers.Store(s.cache, allocations), s.registry);
            var next := Resolvers.Next(w.hash, w.nodes, sys, c);
            next.store.cache == t.cache && next.registry == t.registry
  {
    if c.Resolve? {
      StepsRefineResolve(w, s, id, Touch, c.wid, allocations);
    } else if CallSteps(w, s, id, c, name, address) != [] {
      RunOne(w, s, CallSteps(w, s, id, c, name, address)[0]);
    }
  }

  // ---------- one completion ----------

  /** A completion forwarded right after its cache delete is the completion in one step.  If the
      cluster accepts it, the execution ends as it would by itself, and nothing else changes but
      that the cache has forgotten the id. */
  lemma FinishIsDeleteThenClose(w: World, s: Router, id: nat, accepted: bool)
    requires Enabled(w, s, Finish(id, accepted))
    ensures var es := [Delete(id)] + [Close(id, accepted)];
            IsRun(w, s, es) && After(w, s, es) == Step(w, s, Finish(id, accepted))
    ensures var t, f := Step(w, s, Finish(id, accepted)), s.flights[id];
            && Cached(t, f.wid) == ""
            && (accepted && (f.wid, f.home) in s.open ==> t.open == Step(w, s, Expire(f.wid, f.home)).open < s.open)
            && (!accepted ==> t.open == s.open)
  {
    var dropped := Step(w, s, Delete(id));
    RunOne(w, dropped, Close(id, accepted));
    RunCons(w, s, Delete(id), [Close(id, accepted)]);
    assert dropped.flights - {id} == s.flights - {id};
  }

  // ---------- runs ----------

  lemma {:induction false} RunAppend(w: World, s: Router, a: seq<Event>, b: seq<Event>, wid: string)
    requires IsRun(w, s, a) && IsRun(w, After(w, s, a), b)
    ensures IsRun(w, s, a + b) && After(w, s, a + b) == After(w, After(w, s, a), b)
    ensures CalmRun(w, s, a + b, wid) <==> CalmRun(w, s, a, wid) && CalmRun(w, After(w, s, a), b, wid)
    decreases |a|
  {
    if a == [] {
      assert a + b == b;
    } else {
      assert (a + b)[0] == a[0] && (a + b)[1..] == a[1..] + b;
      RunAppend(w, Step(w, s, a[0]), a[1..], b, wid);
    }
  }

  lemma CalmOne(w: World, s: Router, e: Event, wid: string)
    requires Enabled(w, s, e)
    ensures IsRun(w, s, [e]) && After(w, s, [e]) == Step(w, s, e)
    ensures CalmRun(w, s, [e], wid) <==> Calm(w, s, e, wid)
  {
    RunOne(w, s, e);
    assert [e][0] == e && [e][1..] == [];
  }

  predicate Plain(e: Event) {
    !Admin(e) && !e.Delete? && !e.Finish?
  }

  lemma {:induction false} PlainRunIsCalm(w: World, s: Router, es: seq<Event>, wid: string)
    requires IsRun(w, s, es) && forall e :: e in es ==> Plain(e)
    ensures CalmRun(w, s, es, wid)
    decreases |es|
  {
    if es != [] {
      assert Plain(es[0]);
      PlainRunIsCalm(w, Step(w, s, es[0]), es[1..], wid);
    }
  }

  ghost predicate NeverBroken(w: World, s: Router, es: seq<Event>, wid: string)
    requires IsRun(w, s, es)
    decreases |es|
  {
    !Broken(w, s, wid) && (es == [] || NeverBroken(w, Step(w, s, es[0]), es[1..], wid))
  }

  lemma {:induction false} CalmRunsNeverBreak(w: World, s: Router, es: seq<Event>, wid: string)
    requires IsRun(w, s, es) && CalmRun(w, s, es, wid) && Agreed(w, s, wid)
    ensures NeverBroken(w, s, es, wid)
    decreases |es|
  {
    AgreedIsNotBroken(w, s, wid);
    if es != [] {
      StepExact(w, s, es[0], wid);
      CalmRunsNeverBreak(w, Step(w, s, es[0]), es[1..], wid);
    }
  }

  lemma {:induction false} BrokenOnTheWay(w: World, s: Router, a: seq<Event>, b: seq<Event>, wid: string)
    requires IsRun(w, s, a) && IsRun(w, s, a + b) && Broken(w, After(w, s, a), wid)
    ensures !NeverBroken(w, s, a + b, wid)
    decreases |a|
  {
    if a == [] {
      assert a + b == b;
    } else {
      assert (a + b)[0] == a[0] && (a + b)[1..] == a[1..] + b;
      BrokenOnTheWay(w, Step(w, s, a[0]), a[1..], b, wid);
    }
  }
}
