/** The ring object: its fields are updated by AddSlot and RemoveSlot and read by GetSlot. */
module ConsistentHashing {
  import opened Vnodes
  import opened Sorting
  import Rings

  class ConsistentHash {
    const hash: Hash
    const virtualNodes: nat
    var ring: seq<U32>
    var vnodeToSlot: map<U32, string>

    ghost function State(): Rings.Ring
      reads this
    {
      Rings.Ring(ring, vnodeToSlot)
    }

    /** The list stays sorted through every operation. */
    ghost predicate Valid()
      reads this
    {
      Sorted(ring)
    }

    constructor (hash: Hash, virtualNodes: nat)
      ensures this.hash == hash && this.virtualNodes == virtualNodes
      ensures Valid() && State() == Rings.EMPTY
    {
      this.hash := hash;
      this.virtualNodes := virtualNodes;
      ring := [];
      vnodeToSlot := map[];
    }

    method AddSlot(slot: string)
      modifies this
      ensures Valid()
      ensures State() == Rings.AddSlot(hash, virtualNodes, old(State()), slot)
    {
      ghost var before := State();
      var i := 0;
      while i < virtualNodes
        invariant 0 <= i <= virtualNodes
        invariant State() == Rings.Appended(hash, before, slot, i)
      {
        var vnodeName := VnodeName(slot, i);
        var position := hash(vnodeName);
        ring := ring + [position];
        vnodeToSlot := vnodeToSlot[position := slot];
        i := i + 1;
      }
      Rings.AppendedAll(hash, virtualNodes, before, slot);
      ring := Sort(ring);
    }

    /** sort.Search: the least index whose position is at or after the key's, by bisection. */
    method Search(position: U32) returns (lo: nat)
      requires Valid()
      ensures lo == Rings.FirstAtOrAfter(ring, position)
    {
      lo := 0;
      var hi := |ring|;
      while lo < hi
        invariant 0 <= lo <= hi <= |ring|
        invariant forall j :: 0 <= j < lo ==> ring[j] < position
        invariant forall j :: hi <= j < |ring| ==> position <= ring[j]
      {
        var mid := (lo + hi) / 2;
        if ring[mid] >= position {
          hi := mid;
        } else {
          lo := mid + 1;
        }
      }
      Rings.FirstIsUnique(ring, position, lo);
    }

    method GetSlot(key: string) returns (slot: string)
      requires Valid()
      ensures slot == Rings.GetSlot(hash, State(), key)
    {
      if |ring| == 0 {
        return "";
      }
      var idx := Search(hash(key));
      if idx == |ring| {
        idx := 0;
      }
      slot := if ring[idx] in vnodeToSlot then vnodeToSlot[ring[idx]] else "";
    }

    /** Returns whether the call panicked: the new list's capacity would have been negative. */
    method RemoveSlot(slot: string) returns (panicked: bool)
      requires Valid()
      modifies this
      ensures Valid()
      ensures panicked <==> old(|ring|) < virtualNodes
      ensures State() == Rings.RemoveSlot(hash, virtualNodes, old(State()), slot)
    {
      ghost var own := SlotSeq(hash, virtualNodes, slot);
      var hashesToRemove: set<U32> := {};
      var i := 0;
      while i < virtualNodes
        invariant 0 <= i <= virtualNodes
        invariant hashesToRemove == Elems(own[..i])
        invariant vnodeToSlot == old(vnodeToSlot) - hashesToRemove
        invariant ring == old(ring)
      {
        var position := hash(VnodeName(slot, i));
        Rings.UnlabelOneMore(old(vnodeToSlot), hashesToRemove, position);
        hashesToRemove := hashesToRemove + {position};
        vnodeToSlot := vnodeToSlot - {position};
        Rings.SlotSeqNext(hash, virtualNodes, slot, i);
        i := i + 1;
      }
      assert own[..i] == own;
      SlotSeqSet(hash, virtualNodes, slot);
      assert hashesToRemove == SlotHashes(hash, virtualNodes, slot);
      if |ring| < virtualNodes {
        return true;
      }
      var newRing: seq<U32> := [];
      i := 0;
      while i < |ring|
        invariant 0 <= i <= |ring|
        invariant newRing + Filter(ring[i..], hashesToRemove) == Filter(ring, hashesToRemove)
        invariant ring == old(ring) && vnodeToSlot == old(vnodeToSlot) - hashesToRemove
      {
        FilterNext(ring, i, hashesToRemove);
        if ring[i] !in hashesToRemove {
          newRing := newRing + [ring[i]];
        }
        i := i + 1;
      }
      assert ring[i..] == [] && newRing == Filter(ring, hashesToRemove);
      FilterSorted(ring, hashesToRemove);
      ring := newRing;
      return false;
    }
  }
}
