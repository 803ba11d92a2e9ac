/**
  The consistent-hash ring as a value: what AddSlot, RemoveSlot and GetSlot do to the sorted
  list of positions and to the index from position to slot, together with a stateless
  reference ("the owner of the clockwise-nearest position of the live slots").
 */
module Rings {
  import opened Vnodes
  import opened Sorting

  datatype Ring = Ring(points: seq<U32>, index: map<U32, string>)

  const EMPTY := Ring([], map[])

  // ---------- operations ----------

  /** The index after writing `slot` at each of the given positions. */
  function Label(index: map<U32, string>, ps: set<U32>, slot: string): map<U32, string> {
    map p | p in index.Keys + ps :: if p in ps then slot else index[p]
  }

  lemma LabelOneMore(index: map<U32, string>, ps: set<U32>, slot: string, p: U32)
    ensures Label(index, ps, slot)[p := slot] == Label(index, ps + {p}, slot)
  {
  }

  lemma UnlabelOneMore(index: map<U32, string>, ps: set<U32>, p: U32)
    ensures index - ps - {p} == index - (ps + {p})
  {
  }

  lemma SlotSeqNext(h: Hash, n: nat, slot: string, i: nat)
    requires i < n
    ensures var own, p := SlotSeq(h, n, slot), h(VnodeName(slot, i));
            own[..i + 1] == own[..i] + [p] && Elems(own[..i + 1]) == Elems(own[..i]) + {p}
  {
    var own, p := SlotSeq(h, n, slot), h(VnodeName(slot, i));
    assert own[..i + 1] == own[..i] + [p];
  }

  /** The ring after i rounds of AddSlot's loop. */
  ghost function Appended(h: Hash, r: Ring, slot: string, i: nat): Ring {
    if i == 0 then r else
      var now, p := Appended(h, r, slot, i - 1), h(VnodeName(slot, i - 1));
      Ring(now.points + [p], now.index[p := slot])
  }

  lemma {:induction false} AppendedPoints(h: Hash, n: nat, r: Ring, slot: string, i: nat)
    requires i <= n
    ensures Appended(h, r, slot, i).points == r.points + SlotSeq(h, n, slot)[..i]
  {
    if i > 0 {
      AppendedPoints(h, n, r, slot, i - 1);
      SlotSeqNext(h, n, slot, i - 1);
    }
  }

  lemma {:induction false} AppendedIndex(h: Hash, n: nat, r: Ring, slot: string, i: nat)
    requires i <= n
    ensures Appended(h, r, slot, i).index == Label(r.index, Elems(SlotSeq(h, n, slot)[..i]), slot)
  {
    if i == 0 {
      assert Elems(SlotSeq(h, n, slot)[..0]) == {} && Label(r.index, {}, slot) == r.index;
    } else {
      AppendedIndex(h, n, r, slot, i - 1);
      SlotSeqNext(h, n, slot, i - 1);
      LabelOneMore(r.index, Elems(SlotSeq(h, n, slot)[..i - 1]), slot, h(VnodeName(slot, i - 1)));
    }
  }

  lemma AppendedAll(h: Hash, n: nat, r: Ring, slot: string)
    ensures Appended(h, r, slot, n).points == r.points + SlotSeq(h, n, slot)
    ensures Appended(h, r, slot, n).index == Label(r.index, SlotHashes(h, n, slot), slot)
  {
    assert SlotSeq(h, n, slot)[..n] == SlotSeq(h, n, slot);
    assert Elems(SlotSeq(h, n, slot)) == SlotHashes(h, n, slot) by { SlotSeqSet(h, n, slot); }
    AppendedPoints(h, n, r, slot, n);
    AppendedIndex(h, n, r, slot, n);
  }

  function AddSlot(h: Hash, n: nat, r: Ring, slot: string): Ring {
    Ring(Sort(r.points + SlotSeq(h, n, slot)), Label(r.index, SlotHashes(h, n, slot), slot))
  }

  /** `make` with a negative capacity panics; the index has already been cleaned by then. */
  predicate RemovePanics(n: nat, r: Ring) {
    |r.points| < n
  }

  function RemoveSlot(h: Hash, n: nat, r: Ring, slot: string): Ring {
    var hs := SlotHashes(h, n, slot);
    Ring(if RemovePanics(n, r) then r.points else Filter(r.points, hs), r.index - hs)
  }

  function FirstAtOrAfter(points: seq<U32>, k: U32): (i: nat)
    ensures i <= |points|
    ensures forall j :: 0 <= j < i ==> points[j] < k
    ensures i < |points| ==> k <= points[i]
  {
    if points == [] || k <= points[0] then 0 else 1 + FirstAtOrAfter(points[1..], k)
  }

  lemma {:induction false} FirstIsUnique(points: seq<U32>, k: U32, i: nat)
    requires i <= |points|
    requires forall j :: 0 <= j < i ==> points[j] < k
    requires forall j :: i <= j < |points| ==> k <= points[j]
    ensures FirstAtOrAfter(points, k) == i
  {
    if i > 0 { FirstIsUnique(points[1..], k, i - 1); }
  }

  function Clockwise(points: seq<U32>, k: U32): U32
    requires points != []
  {
    var i := FirstAtOrAfter(points, k);
    points[if i == |points| then 0 else i]
  }

  /** A Go map read: an absent key reads as the empty string. */
  function Owner(index: map<U32, string>, p: U32): string {
    if p in index then index[p] else ""
  }

  function GetSlot(h: Hash, r: Ring, key: string): string {
    if r.points == [] then "" else Owner(r.index, Clockwise(r.points, h(key)))
  }

  // ---------- reference placement ----------

  /** Steps clockwise from k to p on a circle of 2^32 positions. */
  function Distance(k: U32, p: U32): int {
    (p - k) % RING_SIZE
  }

  ghost predicate Nearest(points: set<U32>, k: U32, p: U32) {
    p in points && forall q :: q in points ==> Distance(k, p) <= Distance(k, q)
  }

  lemma NearestUnique(points: set<U32>, k: U32, p: U32, q: U32)
    requires Nearest(points, k, p) && Nearest(points, k, q)
    ensures p == q
  {
    assert Distance(k, p) == Distance(k, q);
  }

  /** Binary search with wrap-around finds the position with the least clockwise distance. */
  lemma ClockwiseIsNearest(points: seq<U32>, k: U32)
    requires Sorted(points) && points != []
    ensures Nearest(Elems(points), k, Clockwise(points, k))
  {
    var p, i := Clockwise(points, k), FirstAtOrAfter(points, k);
    forall q | q in points ensures Distance(k, p) <= Distance(k, q) {
      var j :| 0 <= j < |points| && points[j] == q;
      assert i < |points| && i < j ==> points[i] <= points[j];
      assert 0 < j ==> points[0] <= points[j];
    }
  }

  function Points(h: Hash, n: nat, live: set<string>): set<U32> {
    set s, p | s in live && p in SlotHashes(h, n, s) :: p
  }

  /** The placement the ring is meant to compute, as a relation that mentions no ring. */
  ghost predicate Placed(h: Hash, n: nat, live: set<string>, key: string, slot: string) {
    if Points(h, n, live) == {} then slot == "" else
      slot in live && exists p :: p in SlotHashes(h, n, slot) && Nearest(Points(h, n, live), h(key), p)
  }

  lemma PlacedUnique(h: Hash, n: nat, live: set<string>, key: string, s: string, t: string)
    requires Disjoint(h, n, live)
    requires Placed(h, n, live, key, s) && Placed(h, n, live, key, t)
    ensures s == t
  {
    if Points(h, n, live) != {} {
      var p :| p in SlotHashes(h, n, s) && Nearest(Points(h, n, live), h(key), p);
      var q :| q in SlotHashes(h, n, t) && Nearest(Points(h, n, live), h(key), q);
      NearestUnique(Points(h, n, live), h(key), p, q);
    }
  }

  // ---------- agreement of the list with the index, collisions allowed ----------

  ghost predicate Agrees(r: Ring) {
    Sorted(r.points) && r.index.Keys == Elems(r.points)
  }

  /** Every index entry maps to a slot of `slots` at one of that slot's own positions. */
  ghost predicate Owned(h: Hash, n: nat, r: Ring, slots: set<string>) {
    forall p :: p in r.index ==> r.index[p] in slots && p in SlotHashes(h, n, r.index[p])
  }

  lemma AddedPoints(h: Hash, n: nat, r: Ring, slot: string)
    ensures Elems(AddSlot(h, n, r, slot).points) == Elems(r.points) + SlotHashes(h, n, slot)
  {
    SortElems(r.points + SlotSeq(h, n, slot));
    forall p: U32 ensures p in r.points + SlotSeq(h, n, slot) <==> p in Elems(r.points) + SlotHashes(h, n, slot) {
      SlotSeqElems(h, n, slot, p);
    }
  }

  lemma AddedLength(h: Hash, n: nat, r: Ring, slot: string)
    ensures |AddSlot(h, n, r, slot).points| == |r.points| + n
  {
    var sum := r.points + SlotSeq(h, n, slot);
    assert |Sort(sum)| == |multiset(Sort(sum))| == |multiset(sum)| == |sum|;
  }

  lemma AddedCounts(h: Hash, n: nat, r: Ring, slot: string)
    ensures multiset(AddSlot(h, n, r, slot).points) == multiset(r.points) + multiset(SlotSeq(h, n, slot))
  {
  }

  lemma AddKeepsAgreement(h: Hash, n: nat, r: Ring, slot: string, slots: set<string>)
    requires Owned(h, n, r, slots)
    ensures Sorted(AddSlot(h, n, r, slot).points)
    ensures Agrees(r) ==> Agrees(AddSlot(h, n, r, slot))
    ensures r.index.Keys <= Elems(r.points) ==>
              AddSlot(h, n, r, slot).index.Keys <= Elems(AddSlot(h, n, r, slot).points)
    ensures Owned(h, n, AddSlot(h, n, r, slot), slots + {slot})
  {
    AddedPoints(h, n, r, slot);
  }

  /** Removal keeps list and index in step exactly when it does not panic over positions of the slot. */
  lemma RemoveKeepsAgreement(h: Hash, n: nat, r: Ring, slot: string)
    requires Agrees(r)
    ensures Agrees(RemoveSlot(h, n, r, slot)) <==>
            n <= |r.points| || SlotHashes(h, n, slot) !! Elems(r.points)
  {
    FilterSorted(r.points, SlotHashes(h, n, slot));
    FilterElems(r.points, SlotHashes(h, n, slot));
  }

  /** With or without a panic, what a removal leaves in the index belongs to other slots. */
  lemma RemoveKeepsOwnership(h: Hash, n: nat, r: Ring, slot: string, slots: set<string>)
    requires Sorted(r.points) && r.index.Keys <= Elems(r.points) && Owned(h, n, r, slots)
    ensures var r' := RemoveSlot(h, n, r, slot);
            Sorted(r'.points) && r'.index.Keys <= Elems(r'.points) && Owned(h, n, r', slots - {slot})
  {
    FilterSorted(r.points, SlotHashes(h, n, slot));
    FilterElems(r.points, SlotHashes(h, n, slot));
  }

  /** After AddSlot every key keeps its slot or moves to the new one, even under hash collisions. */
  lemma AddIsMonotone(h: Hash, n: nat, r: Ring, slot: string, key: string)
    requires Sorted(r.points)
    ensures GetSlot(h, AddSlot(h, n, r, slot), key) in {GetSlot(h, r, key), slot}
  {
    var r', k := AddSlot(h, n, r, slot), h(key);
    AddedPoints(h, n, r, slot);
    if r'.points != [] {
      var p := Clockwise(r'.points, k);
      ClockwiseIsNearest(r'.points, k);
      if p !in SlotHashes(h, n, slot) {
        assert p in Elems(r.points);
        ClockwiseIsNearest(r.points, k);
        NearestUnique(Elems(r.points), k, p, Clockwise(r.points, k));
      }
    } else {
      AddedLength(h, n, r, slot);
    }
  }

  /** Removing a slot whose positions do not hold the key's nearest position leaves the key alone. */
  lemma RemoveKeepsOthers(h: Hash, n: nat, r: Ring, slot: string, key: string)
    requires Agrees(r) && n <= |r.points|
    requires r.points != [] && Clockwise(r.points, h(key)) !in SlotHashes(h, n, slot)
    ensures GetSlot(h, RemoveSlot(h, n, r, slot), key) == GetSlot(h, r, key)
  {
    var r', k := RemoveSlot(h, n, r, slot), h(key);
    var p := Clockwise(r.points, k);
    FilterSorted(r.points, SlotHashes(h, n, slot));
    FilterElems(r.points, SlotHashes(h, n, slot));
    assert p in Elems(r'.points);
    ClockwiseIsNearest(r.points, k);
    ClockwiseIsNearest(r'.points, k);
    NearestUnique(Elems(r'.points), k, p, Clockwise(r'.points, k));
  }

  lemma AddThenFilter(h: Hash, n: nat, r: Ring, slot: string, p: U32)
    requires SlotHashes(h, n, slot) !! Elems(r.points)
    ensures multiset(Filter(AddSlot(h, n, r, slot).points, SlotHashes(h, n, slot)))[p] == multiset(r.points)[p]
  {
    var hs, own := SlotHashes(h, n, slot), SlotSeq(h, n, slot);
    FilterCounts(AddSlot(h, n, r, slot).points, hs, p);
    AddedCounts(h, n, r, slot);
    SlotSeqElems(h, n, slot, p);
    assert p in own <==> p in multiset(own);
    assert p in Elems(r.points) <==> p in multiset(r.points);
  }

  lemma AddThenFilterRestores(h: Hash, n: nat, r: Ring, slot: string)
    requires Sorted(r.points) && SlotHashes(h, n, slot) !! Elems(r.points)
    ensures Filter(AddSlot(h, n, r, slot).points, SlotHashes(h, n, slot)) == r.points
  {
    var hs, points := SlotHashes(h, n, slot), AddSlot(h, n, r, slot).points;
    FilterSorted(points, hs);
    forall p: U32 ensures multiset(Filter(points, hs))[p] == multiset(r.points)[p] {
      AddThenFilter(h, n, r, slot, p);
    }
    SortedUniqueByCounts(Filter(points, hs), r.points);
  }

  /** AddSlot then RemoveSlot of a slot sharing no position with the ring restores list and index. */
  lemma AddThenRemoveRestores(h: Hash, n: nat, r: Ring, slot: string)
    requires Agrees(r) && SlotHashes(h, n, slot) !! r.index.Keys
    ensures RemoveSlot(h, n, AddSlot(h, n, r, slot), slot) == r
  {
    AddedLength(h, n, r, slot);
    AddThenFilterRestores(h, n, r, slot);
    assert AddSlot(h, n, r, slot).index - SlotHashes(h, n, slot) == r.index;
  }
}
