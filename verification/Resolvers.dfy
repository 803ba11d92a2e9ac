/**
  The resolver object: the routing cache, the per-namespace allocation counter, and Resolve.
  The store is reliable here; an absent key and an empty value both read as a miss.
 */
module Resolvers {
  import opened Options
  import opened Vnodes
  import Rings
  import opened VirtualNamespaces

  datatype Store = Store(cache: map<string, string>, allocations: map<string, nat>)

  const EMPTY_STORE := Store(map[], map[])

  function Get(cache: map<string, string>, key: string): string {
    if key in cache then cache[key] else ""
  }

  function Count(allocations: map<string, nat>, slot: string): nat {
    if slot in allocations then allocations[slot] else 0
  }

  /** The store after resolving `key`; `place` is the ring's answer, None for an unknown namespace. */
  function Resolved(st: Store, key: string, place: Option<string>): Store {
    if Get(st.cache, key) != "" || place.None? then st else
      Store(st.cache[key := place.value], st.allocations[place.value := Count(st.allocations, place.value) + 1])
  }

  /** The ring's answer for a workflow id; None for an unknown virtual namespace. */
  function Answer(h: Hash, registry: map<string, VNamespace>, key: string, vns: string): Option<string> {
    if vns in registry then Some(Rings.GetSlot(h, registry[vns].ring, key)) else None
  }

  ghost function States(registry: map<string, VirtualNamespace>): map<string, VNamespace>
    reads registry.Values, set v | v in registry :: registry[v].Ring
  {
    map v | v in registry :: registry[v].State()
  }

  class Resolver {
    var cache: map<string, string>
    var allocations: map<string, nat>

    ghost function State(): Store
      reads this
    {
      Store(cache, allocations)
    }

    constructor ()
      ensures State() == EMPTY_STORE
    {
      cache := map[];
      allocations := map[];
    }

    method Resolve(workflowID: string, virtualNamespace: string, registry: map<string, VirtualNamespace>)
      returns (physNs: string, hit: bool)
      requires virtualNamespace in registry ==> registry[virtualNamespace].Valid()
      modifies this
      ensures hit <==> old(Get(cache, workflowID)) != ""
      ensures hit ==> physNs == old(Get(cache, workflowID)) && State() == old(State())
      ensures !hit && virtualNamespace !in registry ==> physNs == "" && State() == old(State())
      ensures !hit && virtualNamespace in registry ==>
                && physNs == Rings.GetSlot(registry[virtualNamespace].Ring.hash,
                                           registry[virtualNamespace].Ring.State(), workflowID)
                && Answer(registry[virtualNamespace].Ring.hash, States(registry), workflowID, virtualNamespace)
                   == Some(physNs)
                && State() == Resolved(old(State()), workflowID, Some(physNs))
    {
      physNs := Get(cache, workflowID);
      if physNs != "" {
        return physNs, true;
      }
      if virtualNamespace !in registry {
        return "", false;
      }
      physNs := registry[virtualNamespace].Ring.GetSlot(workflowID);
      allocations := allocations[physNs := Count(allocations, physNs) + 1];
      cache := cache[workflowID := physNs];
      hit := false;
    }
  }

  // ---------- runs of resolves between admin calls ----------

  datatype Call =
    | Resolve(wid: string, vns: string)
    | Create(vns: string)
    | Add(vns: string, slot: string)
    | Remove(vns: string, slot: string)

  datatype System = System(store: Store, registry: map<string, VNamespace>)

  function Next(h: Hash, n: nat, sys: System, c: Call): System {
    match c
    case Resolve(wid, vns) => sys.(store := Resolved(sys.store, wid, Answer(h, sys.registry, wid, vns)))
    case Create(vns) => if vns in sys.registry then sys else sys.(registry := sys.registry[vns := FRESH])
    case Add(vns, slot) =>
      if vns !in sys.registry then sys
      else sys.(registry := sys.registry[vns := AddNamespace(h, n, sys.registry[vns], slot)])
    case Remove(vns, slot) =>
      if vns !in sys.registry then sys
      else sys.(registry := sys.registry[vns := RemoveNamespace(h, n, sys.registry[vns], slot)])
  }

  function Run(h: Hash, n: nat, sys: System, calls: seq<Call>): System
    decreases |calls|
  {
    if calls == [] then sys else Run(h, n, Next(h, n, sys, calls[0]), calls[1..])
  }

  function CachedTo(cache: map<string, string>, slot: string): set<string> {
    set wid | wid in cache && cache[wid] == slot
  }

  /** Each counter is the number of workflows cached to its namespace. */
  ghost predicate Balanced(st: Store) {
    forall slot :: slot != "" ==> Count(st.allocations, slot) == |CachedTo(st.cache, slot)|
  }

  lemma ResolveKeepsBalance(st: Store, key: string, place: Option<string>)
    requires Balanced(st)
    ensures Balanced(Resolved(st, key, place))
  {
    if Get(st.cache, key) == "" && place.Some? {
      var st' := Resolved(st, key, place);
      forall slot | slot != "" ensures Count(st'.allocations, slot) == |CachedTo(st'.cache, slot)| {
        if slot == place.value {
          assert key !in CachedTo(st.cache, slot);
          assert CachedTo(st'.cache, slot) == CachedTo(st.cache, slot) + {key};
        } else {
          assert CachedTo(st'.cache, slot) == CachedTo(st.cache, slot);
        }
      }
    }
  }

  /** Allocation conservation: in every run of resolves, creations, additions and removals the
      counter of a namespace equals the number of workflow ids cached to it. */
  lemma {:induction false} AllocationConserved(h: Hash, n: nat, sys: System, calls: seq<Call>)
    requires Balanced(sys.store)
    ensures Balanced(Run(h, n, sys, calls).store)
    decreases |calls|
  {
    if calls != [] {
      if calls[0].Resolve? {
        ResolveKeepsBalance(sys.store, calls[0].wid, Answer(h, sys.registry, calls[0].wid, calls[0].vns));
      }
      AllocationConserved(h, n, Next(h, n, sys, calls[0]), calls[1..]);
    }
  }

  /** Stickiness: whatever is resolved, added and removed afterwards, a cached workflow keeps its
      namespace, so it still resolves to a namespace that has been cordoned meanwhile. */
  lemma {:induction false} Sticky(h: Hash, n: nat, sys: System, calls: seq<Call>, wid: string)
    requires Get(sys.store.cache, wid) != ""
    ensures Get(Run(h, n, sys, calls).store.cache, wid) == Get(sys.store.cache, wid)
    decreases |calls|
  {
    if calls != [] {
      Sticky(h, n, Next(h, n, sys, calls[0]), calls[1..], wid);
    }
  }
}
