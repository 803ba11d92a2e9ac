/**
  The sticky router as a state machine.  Every handler is split at its accesses to shared
  state, so requests, worker polls and admin calls interleave freely:

    Begin     read the cache; a hit is parsed at once, a miss goes on to the ring
    Lookup    ask the ring of the request's virtual namespace
    Put       write the answer to the cache and parse it
    Forward   hand the rewritten request to the cluster (a start may be accepted or rejected)
    Finish    a completing task response: delete the cache entry, forward, close the execution
    Delete    the same response stopped right after its cache delete ...
    Close     ... and forwarded later
    Handout   a cluster gives a task of an execution that is open there to a poll
    PollPut   the poll writes the namespace that supplied the task to the cache
    Expire    a cluster ends an execution by itself; the router is not told

  A request whose slot does not parse panics in its handler and disappears without a trace.
 */
module Routing {
  import opened Vnodes
  import opened PhysicalNames
  import Resolvers
  import opened VirtualNamespaces

  /** What stays fixed: the hash, the ring's replica count, and which virtual namespace each
      workflow id is used under. */
  datatype World = World(hash: Hash, nodes: nat, vnsOf: string -> string)

  datatype Kind = Start | Touch | Complete

  datatype Flight =
    | Missed(kind: Kind, wid: string)
    | Looked(kind: Kind, wid: string, slot: string)
    | Routed(kind: Kind, wid: string, home: Namespace)
    | Dropped(wid: string, home: Namespace)
    | Polled(wid: string, slot: string)

  datatype Router = Router(
    cache: map<string, string>,
    registry: map<string, VNamespace>,
    flights: map<nat, Flight>,
    open: set<(string, Namespace)>)

  datatype Event =
    | Create(vns: string)
    | AddNs(vns: string, name: string, address: string)
    | RemoveNs(vns: string, name: string, address: string)
    | Begin(id: nat, kind: Kind, wid: string)
    | Lookup(id: nat)
    | Put(id: nat)
    | Forward(id: nat, accepted: bool)
    | Finish(id: nat, accepted: bool)
    | Delete(id: nat)
    | Close(id: nat, accepted: bool)
    | Handout(id: nat, wid: string, slot: string)
    | PollPut(id: nat)
    | Expire(wid: string, home: Namespace)

  const INITIAL := Router(map[], map[], map[], {})

  function Cached(s: Router, wid: string): string {
    Resolvers.Get(s.cache, wid)
  }

  /** What the ring would answer now; empty when the namespace is unknown or its ring is empty. */
  function Place(w: World, s: Router, wid: string): string {
    var answer := Resolvers.Answer(w.hash, s.registry, wid, w.vnsOf(wid));
    if answer.Some? then answer.value else ""
  }

  function If<T>(b: bool, x: T): set<T> {
    if b then {x} else {}
  }

  predicate Enabled(w: World, s: Router, e: Event) {
    match e
    case Create(v) => v !in s.registry
    case AddNs(v, _, _) => v in s.registry
    case RemoveNs(v, _, _) => v in s.registry
    case Begin(id, _, _) => id !in s.flights
    case Lookup(id) => id in s.flights && s.flights[id].Missed?
    case Put(id) => id in s.flights && s.flights[id].Looked?
    case Forward(id, _) => id in s.flights && s.flights[id].Routed? && s.flights[id].kind != Complete
    case Finish(id, _) => id in s.flights && s.flights[id].Routed? && s.flights[id].kind == Complete
    case Delete(id) => id in s.flights && s.flights[id].Routed? && s.flights[id].kind == Complete
    case Close(id, _) => id in s.flights && s.flights[id].Dropped?
    case Handout(id, wid, slot) =>
      && id !in s.flights
      && w.vnsOf(wid) in s.registry && slot in s.registry[w.vnsOf(wid)].statuses
      && Parse(slot).Some? && (wid, Parse(slot).value) in s.open
    case PollPut(id) => id in s.flights && s.flights[id].Polled?
    case Expire(wid, home) => (wid, home) in s.open
  }

  function Step(w: World, s: Router, e: Event): Router
    requires Enabled(w, s, e)
  {
    match e
    case Create(v) => s.(registry := s.registry[v := FRESH])
    case AddNs(v, name, address) =>
      s.(registry := s.registry[v := AddNamespace(w.hash, w.nodes, s.registry[v], Build(name, address))])
    case RemoveNs(v, name, address) =>
      s.(registry := s.registry[v := RemoveNamespace(w.hash, w.nodes, s.registry[v], Build(name, address))])
    case Begin(id, kind, wid) =>
      var slot := Cached(s, wid);
      if slot == "" then s.(flights := s.flights[id := Missed(kind, wid)]) else
      (match Parse(slot)
       case None => s
       case Some(home) => s.(flights := s.flights[id := Routed(kind, wid, home)]))
    case Lookup(id) =>
      var f := s.flights[id];
      if w.vnsOf(f.wid) !in s.registry then s.(flights := s.flights - {id})
      else s.(flights := s.flights[id := Looked(f.kind, f.wid, Place(w, s, f.wid))])
    case Put(id) =>
      var f := s.flights[id];
      s.(cache := s.cache[f.wid := f.slot],
         flights := match Parse(f.slot)
                    case None => s.flights - {id}
                    case Some(home) => s.flights[id := Routed(f.kind, f.wid, home)])
    case Forward(id, accepted) =>
      var f := s.flights[id];
      s.(flights := s.flights - {id}, open := s.open + If(f.kind == Start && accepted, (f.wid, f.home)))
    case Finish(id, accepted) =>
      var f := s.flights[id];
      s.(cache := s.cache - {f.wid}, flights := s.flights - {id}, open := s.open - If(accepted, (f.wid, f.home)))
    case Delete(id) =>
      var f := s.flights[id];
      s.(cache := s.cache - {f.wid}, flights := s.flights[id := Dropped(f.wid, f.home)])
    case Close(id, accepted) =>
      var f := s.flights[id];
      s.(flights := s.flights - {id}, open := s.open - If(accepted, (f.wid, f.home)))
    case Handout(id, wid, slot) => s.(flights := s.flights[id := Polled(wid, slot)])
    case PollPut(id) =>
      var f := s.flights[id];
      s.(cache := s.cache[f.wid := f.slot], flights := s.flights - {id})
    case Expire(wid, home) => s.(open := s.open - {(wid, home)})
  }

  predicate IsRun(w: World, s: Router, es: seq<Event>)
    decreases |es|
  {
    es == [] || (Enabled(w, s, es[0]) && IsRun(w, Step(w, s, es[0]), es[1..]))
  }

  function After(w: World, s: Router, es: seq<Event>): Router
    requires IsRun(w, s, es)
    decreases |es|
  {
    if es == [] then s else After(w, Step(w, s, es[0]), es[1..])
  }

  predicate Admin(e: Event) {
    e.Create? || e.AddNs? || e.RemoveNs?
  }

  /** The event hands a request for wid to `home`. */
  predicate Sends(s: Router, e: Event, wid: string, home: Namespace) {
    && (e.Forward? || e.Finish? || e.Close?)
    && e.id in s.flights
    && (s.flights[e.id].Routed? || s.flights[e.id].Dropped?)
    && s.flights[e.id].wid == wid && s.flights[e.id].home == home
  }

  // ---------- the two promises ----------

  /** The workflow is open on at most one physical namespace. */
  ghost predicate SingleHome(s: Router, wid: string) {
    forall a, b :: (wid, a) in s.open && (wid, b) in s.open ==> a == b
  }

  /** The event sends a request for an open workflow somewhere else than where it is open. */
  ghost predicate Misroutes(s: Router, e: Event, wid: string) {
    exists home, a :: Sends(s, e, wid, home) && (wid, a) in s.open && a != home
  }

  ghost predicate Broken(w: World, s: Router, wid: string) {
    !SingleHome(s, wid) || exists e :: Enabled(w, s, e) && Misroutes(s, e, wid)
  }
}
