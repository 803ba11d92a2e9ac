/**
  A virtual namespace: a ring of active physical namespaces plus the status of every physical
  namespace it ever had.  Removing one cordons it: it leaves the ring and keeps its entry.
 */
module VirtualNamespaces {
  import opened Vnodes
  import opened Sorting
  import Rings
  import opened RingHistory
  import opened ConsistentHashing

  datatype Status = Active | Cordoned

  const VIRTUAL_NODES: nat := 50

  // ---------- values ----------

  datatype VNamespace = VNamespace(ring: Rings.Ring, statuses: map<string, Status>)

  const FRESH := VNamespace(Rings.EMPTY, map[])

  function AddNamespace(h: Hash, n: nat, v: VNamespace, slot: string): VNamespace {
    VNamespace(Rings.AddSlot(h, n, v.ring, slot), v.statuses[slot := Active])
  }

  function RemoveNamespace(h: Hash, n: nat, v: VNamespace, slot: string): VNamespace {
    VNamespace(Rings.RemoveSlot(h, n, v.ring, slot),
               if slot in v.statuses then v.statuses[slot := Cordoned] else v.statuses)
  }

  function ActiveSlots(statuses: map<string, Status>): set<string> {
    set s | s in statuses && statuses[s] == Active
  }

  /** Whatever the ring names is active; this survives collisions and panics. */
  ghost predicate Sound(h: Hash, n: nat, v: VNamespace) {
    && Sorted(v.ring.points)
    && v.ring.index.Keys <= Elems(v.ring.points)
    && Rings.Owned(h, n, v.ring, ActiveSlots(v.statuses))
  }

  lemma AddKeepsSound(h: Hash, n: nat, v: VNamespace, slot: string)
    requires Sound(h, n, v)
    ensures Sound(h, n, AddNamespace(h, n, v, slot))
    ensures ActiveSlots(AddNamespace(h, n, v, slot).statuses) == ActiveSlots(v.statuses) + {slot}
  {
    Rings.AddKeepsAgreement(h, n, v.ring, slot, ActiveSlots(v.statuses));
  }

  lemma RemoveKeepsSound(h: Hash, n: nat, v: VNamespace, slot: string)
    requires Sound(h, n, v)
    ensures Sound(h, n, RemoveNamespace(h, n, v, slot))
    ensures ActiveSlots(RemoveNamespace(h, n, v, slot).statuses) == ActiveSlots(v.statuses) - {slot}
  {
    Rings.RemoveKeepsOwnership(h, n, v.ring, slot, ActiveSlots(v.statuses));
  }

  /** A placement is empty or active: a cordoned namespace gets no new workflow. */
  lemma PlacementIsActive(h: Hash, n: nat, v: VNamespace, key: string)
    requires Sound(h, n, v)
    ensures var slot := Rings.GetSlot(h, v.ring, key);
            slot == "" || (slot in v.statuses && v.statuses[slot] == Active)
  {
  }

  function Run(h: Hash, n: nat, ops: seq<Op>): VNamespace {
    if ops == [] then FRESH else
      var v := Run(h, n, ops[..|ops| - 1]);
      match ops[|ops| - 1]
      case Add(s) => AddNamespace(h, n, v, s)
      case Remove(s) => RemoveNamespace(h, n, v, s)
  }

  /** In every history the active namespaces are the live slots of the ring. */
  lemma {:induction false} RunTracksRing(h: Hash, n: nat, ops: seq<Op>)
    ensures Sound(h, n, Run(h, n, ops))
    ensures Run(h, n, ops).ring == RingHistory.Run(h, n, ops)
    ensures ActiveSlots(Run(h, n, ops).statuses) == Live(ops)
  {
    if ops != [] {
      var before, op := ops[..|ops| - 1], ops[|ops| - 1];
      RunTracksRing(h, n, before);
      match op
      case Add(s) => AddKeepsSound(h, n, Run(h, n, before), s);
      case Remove(s) => RemoveKeepsSound(h, n, Run(h, n, before), s);
    }
  }

  function Added(ops: seq<Op>): set<string> {
    set op | op in ops && op.Add? :: op.slot
  }

  lemma AddedSnoc(ops: seq<Op>, op: Op)
    ensures Added(ops + [op]) == Added(ops) + (if op.Add? then {op.slot} else {})
  {
    if op.Add? { assert op in ops + [op]; }
  }

  /** A cordoned namespace is never forgotten: every namespace ever added keeps its status. */
  lemma {:induction false} RunForgetsNothing(h: Hash, n: nat, ops: seq<Op>)
    ensures Run(h, n, ops).statuses.Keys == Added(ops)
  {
    if ops != [] {
      var before, op := ops[..|ops| - 1], ops[|ops| - 1];
      RunForgetsNothing(h, n, before);
      AddedSnoc(before, op);
      assert ops == before + [op];
    }
  }

  /** Rings that hold the same live slots answer alike, so a namespace rebuilt from the statuses
      of a checkpoint places every key as the original did. */
  lemma RestoredPlacement(h: Hash, n: nat, ops: seq<Op>, restored: Rings.Ring, key: string)
    requires Disjoint(h, n, Named(ops))
    requires Represents(h, n, restored, ActiveSlots(Run(h, n, ops).statuses))
    ensures Rings.GetSlot(h, restored, key) == Rings.GetSlot(h, Run(h, n, ops).ring, key)
  {
    RunTracksRing(h, n, ops);
    Refinement(h, n, ops, key);
    RepresentsPlaces(h, n, restored, Live(ops), key);
  }

  // ---------- the object ----------

  class VirtualNamespace {
    const Name: string
    const Ring: ConsistentHash
    var Namespaces: map<string, Status>

    ghost function State(): VNamespace
      reads this, Ring
    {
      VNamespace(Ring.State(), Namespaces)
    }

    ghost predicate Valid()
      reads this, Ring
    {
      Ring.virtualNodes == VIRTUAL_NODES && Sound(Ring.hash, VIRTUAL_NODES, State())
    }

    constructor (name: string, hash: Hash)
      ensures Name == name && Ring.hash == hash && Ring.virtualNodes == 50 && fresh(Ring)
      ensures Valid() && State() == FRESH
    {
      Name := name;
      Ring := new ConsistentHash(hash, VIRTUAL_NODES);
      Namespaces := map[];
    }

    method Add(slot: string)
      requires Valid()
      modifies this, Ring
      ensures Valid()
      ensures State() == AddNamespace(Ring.hash, VIRTUAL_NODES, old(State()), slot)
    {
      AddKeepsSound(Ring.hash, VIRTUAL_NODES, State(), slot);
      Namespaces := Namespaces[slot := Active];
      Ring.AddSlot(slot);
    }

    /** Reports a panic of the ring; the namespace is cordoned either way. */
    method Remove(slot: string) returns (panicked: bool)
      requires Valid()
      modifies this, Ring
      ensures Valid()
      ensures State() == RemoveNamespace(Ring.hash, VIRTUAL_NODES, old(State()), slot)
      ensures panicked <==> old(Rings.RemovePanics(VIRTUAL_NODES, Ring.State()))
    {
      RemoveKeepsSound(Ring.hash, VIRTUAL_NODES, State(), slot);
      if slot in Namespaces {
        Namespaces := Namespaces[slot := Cordoned];
      }
      panicked := Ring.RemoveSlot(slot);
    }

    /** Every namespace, cordoned ones included, once each, in some order of the map. */
    method GetAllNamespaces() returns (result: seq<string>)
      ensures Elems(result) == Namespaces.Keys
      ensures forall i, j :: 0 <= i < j < |result| ==> result[i] != result[j]
    {
      result := [];
      var rest := Namespaces.Keys;
      while rest != {}
        invariant rest <= Namespaces.Keys
        invariant Elems(result) == Namespaces.Keys - rest
        invariant forall i, j :: 0 <= i < j < |result| ==> result[i] != result[j]
      {
        var k :| k in rest;
        assert k !in Elems(result);
        assert Elems(result + [k]) == Elems(result) + {k};
        result := result + [k];
        rest := rest - {k};
      }
    }

    /** One entry of a checkpoint: active slots go back on the ring, others only get their status. */
    method Load(slot: string, status: Status)
      requires Valid() && slot !in Namespaces
      requires Represents(Ring.hash, VIRTUAL_NODES, Ring.State(), ActiveSlots(Namespaces))
      modifies this, Ring
      ensures Valid() && Namespaces == old(Namespaces)[slot := status]
      ensures Represents(Ring.hash, VIRTUAL_NODES, Ring.State(), ActiveSlots(Namespaces))
    {
      ghost var live := ActiveSlots(Namespaces);
      if status == Active {
        RepresentsAdd(Ring.hash, VIRTUAL_NODES, Ring.State(), live, slot);
        Add(slot);
        assert ActiveSlots(Namespaces) == live + {slot};
      } else {
        Namespaces := Namespaces[slot := status];
        assert ActiveSlots(Namespaces) == live;
      }
    }
  }

  /** Rebuilds a virtual namespace from checkpointed statuses, in any order of the map. */
  method Restore(name: string, hash: Hash, snapshot: map<string, Status>) returns (v: VirtualNamespace)
    ensures fresh(v) && fresh(v.Ring) && v.Valid() && v.Ring.hash == hash
    ensures v.Namespaces == snapshot
    ensures Represents(hash, VIRTUAL_NODES, v.Ring.State(), ActiveSlots(snapshot))
  {
    v := new VirtualNamespace(name, hash);
    var rest := snapshot.Keys;
    while rest != {}
      invariant fresh(v) && fresh(v.Ring) && v.Valid() && v.Ring.hash == hash
      invariant rest <= snapshot.Keys && v.Namespaces == snapshot - rest
      invariant Represents(hash, VIRTUAL_NODES, v.Ring.State(), ActiveSlots(v.Namespaces))
    {
      var slot :| slot in rest;
      v.Load(slot, snapshot[slot]);
      rest := rest - {slot};
    }
    assert snapshot - {} == snapshot;
  }
}
