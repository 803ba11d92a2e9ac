/**
  The router's rings over whole runs: each virtual namespace is in the state that its own additions
  and removals alone would have left it in, so what a request is told by the ring is the reference
  placement of the slots that are live at that moment.
 */
module RoutingPlacement {
  import opened Vnodes
  import opened PhysicalNames
  import Rings
  import opened RingHistory
  import opened VirtualNamespaces
  import opened Routing

  /** What an event does to the ring of virtual namespace v. */
  function OpsOf(e: Event, v: string): seq<Op> {
    match e
    case AddNs(x, name, address) => if x == v then [Add(Build(name, address))] else []
    case RemoveNs(x, name, address) => if x == v then [Remove(Build(name, address))] else []
    case _ => []
  }

  /** The additions and removals of a run that concern v, in order. */
  function Ops(es: seq<Event>, v: string): seq<Op> {
    if es == [] then [] else Ops(es[..|es| - 1], v) + OpsOf(es[|es| - 1], v)
  }

  lemma OpsSnoc(es: seq<Event>, e: Event, v: string)
    ensures Ops(es + [e], v) == Ops(es, v) + OpsOf(e, v)
  {
    assert (es + [e])[..|es|] == es;
  }

  lemma HistorySnoc(h: Hash, n: nat, ops: seq<Op>, op: Op)
    ensures VirtualNamespaces.Run(h, n, ops + [op]) ==
            if op.Add? then AddNamespace(h, n, VirtualNamespaces.Run(h, n, ops), op.slot)
            else RemoveNamespace(h, n, VirtualNamespaces.Run(h, n, ops), op.slot)
  {
    assert (ops + [op])[..|ops|] == ops;
  }

  /** Virtual namespace v is what these additions and removals make of it. */
  predicate IsAt(w: World, s: Router, v: string, ops: seq<Op>) {
    if v in s.registry then s.registry[v] == VirtualNamespaces.Run(w.hash, w.nodes, ops) else ops == []
  }

  ghost predicate Tracks(w: World, s: Router, past: seq<Event>) {
    forall v :: IsAt(w, s, v, Ops(past, v))
  }

  lemma OthersStay(w: World, s: Router, e: Event, v: string, ops: seq<Op>)
    requires Enabled(w, s, e) && IsAt(w, s, v, ops) && OpsOf(e, v) == []
    ensures IsAt(w, Step(w, s, e), v, ops)
  {
    if e == Create(v) { assert VirtualNamespaces.Run(w.hash, w.nodes, []) == FRESH; }
  }

  lemma StepApplies(w: World, s: Router, e: Event, v: string, ops: seq<Op>)
    requires Enabled(w, s, e) && IsAt(w, s, v, ops)
    ensures IsAt(w, Step(w, s, e), v, ops + OpsOf(e, v))
  {
    if OpsOf(e, v) == [] {
      assert ops + [] == ops;
      OthersStay(w, s, e, v, ops);
    } else if e.AddNs? {
      HistorySnoc(w.hash, w.nodes, ops, Add(Build(e.name, e.address)));
    } else {
      HistorySnoc(w.hash, w.nodes, ops, Remove(Build(e.name, e.address)));
    }
  }

  lemma TracksStep(w: World, s: Router, past: seq<Event>, e: Event)
    requires Enabled(w, s, e) && Tracks(w, s, past)
    ensures Tracks(w, Step(w, s, e), past + [e])
  {
    forall v ensures IsAt(w, Step(w, s, e), v, Ops(past + [e], v)) {
      OpsSnoc(past, e, v);
      StepApplies(w, s, e, v, Ops(past, v));
    }
  }

  lemma {:induction false} TracksRun(w: World, s: Router, past: seq<Event>, es: seq<Event>)
    requires IsRun(w, s, es) && Tracks(w, s, past)
    ensures Tracks(w, After(w, s, es), past + es)
    decreases |es|
  {
    if es == [] {
      assert past + es == past;
    } else {
      TracksStep(w, s, past, es[0]);
      TracksRun(w, Step(w, s, es[0]), past + [es[0]], es[1..]);
      assert past + [es[0]] + es[1..] == past + es;
    }
  }

  /** In every run, however it interleaves with requests and polls, the status map and the ring of
      each virtual namespace depend on its own additions and removals only. */
  lemma RegistryIsHistory(w: World, es: seq<Event>, v: string)
    requires IsRun(w, INITIAL, es)
    ensures var s := After(w, INITIAL, es);
            && (v in s.registry ==> s.registry[v] == VirtualNamespaces.Run(w.hash, w.nodes, Ops(es, v)))
            && (v !in s.registry ==> Ops(es, v) == [])
  {
    TracksRun(w, INITIAL, [], es);
    assert [] + es == es;
    assert IsAt(w, After(w, INITIAL, es), v, Ops(es, v));
  }

  /** If the slots named for the id's virtual namespace share no position, then after every run from
      the start the router's answer for a workflow id is the reference placement of that id among
      the namespaces that are active, and no other slot is. */
  lemma PlaceIsReference(w: World, es: seq<Event>, wid: string)
    requires IsRun(w, INITIAL, es)
    requires Disjoint(w.hash, w.nodes, Named(Ops(es, w.vnsOf(wid))))
    ensures var s, live := After(w, INITIAL, es), Live(Ops(es, w.vnsOf(wid)));
            && (forall slot :: Rings.Placed(w.hash, w.nodes, live, wid, slot) <==> slot == Place(w, s, wid))
            && (w.vnsOf(wid) in s.registry ==> live == ActiveSlots(s.registry[w.vnsOf(wid)].statuses))
  {
    var v := w.vnsOf(wid);
    RegistryIsHistory(w, es, v);
    RunTracksRing(w.hash, w.nodes, Ops(es, v));
    Refinement(w.hash, w.nodes, Ops(es, v), wid);
  }

  /** Hence what a miss is told by the ring, and later writes to the cache, is that placement. */
  lemma LookupIsReference(w: World, es: seq<Event>, id: nat)
    requires IsRun(w, INITIAL, es) && Enabled(w, After(w, INITIAL, es), Lookup(id))
    requires var v := w.vnsOf(After(w, INITIAL, es).flights[id].wid);
             v in After(w, INITIAL, es).registry && Disjoint(w.hash, w.nodes, Named(Ops(es, v)))
    ensures var s := After(w, INITIAL, es);
            var wid, t := s.flights[id].wid, Step(w, s, Lookup(id));
            && Enabled(w, t, Put(id)) && t.flights[id].wid == wid
            && Rings.Placed(w.hash, w.nodes, Live(Ops(es, w.vnsOf(wid))), wid, t.flights[id].slot)
            && Cached(Step(w, t, Put(id)), wid) == t.flights[id].slot
  {
    PlaceIsReference(w, es, After(w, INITIAL, es).flights[id].wid);
  }
}
