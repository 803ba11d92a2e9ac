/**
  Whole histories of AddSlot and RemoveSlot calls.  When distinct slots share no position, the
  ring computes the reference placement of the slots that are currently live, whatever the
  history; a concrete history shows what a shared position can break.
 */
module RingHistory {
  import opened Vnodes
  import opened Sorting
  import opened Rings

  datatype Op = Add(slot: string) | Remove(slot: string)

  function Apply(h: Hash, n: nat, r: Ring, op: Op): Ring {
    match op
    case Add(s) => AddSlot(h, n, r, s)
    case Remove(s) => RemoveSlot(h, n, r, s)
  }

  function Run(h: Hash, n: nat, ops: seq<Op>): Ring {
    if ops == [] then EMPTY else Apply(h, n, Run(h, n, ops[..|ops| - 1]), ops[|ops| - 1])
  }

  lemma RunSnoc(h: Hash, n: nat, ops: seq<Op>, op: Op)
    ensures Run(h, n, ops + [op]) == Apply(h, n, Run(h, n, ops), op)
  {
    assert (ops + [op])[..|ops|] == ops;
  }

  function LiveAfter(live: set<string>, op: Op): set<string> {
    match op
    case Add(s) => live + {s}
    case Remove(s) => live - {s}
  }

  function Live(ops: seq<Op>): set<string> {
    if ops == [] then {} else LiveAfter(Live(ops[..|ops| - 1]), ops[|ops| - 1])
  }

  function Named(ops: seq<Op>): set<string> {
    set op | op in ops :: op.slot
  }

  // ---------- what holds even when slots share positions ----------

  /** In every reachable state the list is sorted, the index is part of it, and each index entry
      belongs to a slot that is live and at one of that slot's own positions. */
  lemma {:induction false} ReachableOwnership(h: Hash, n: nat, ops: seq<Op>)
    ensures var r := Run(h, n, ops);
            Sorted(r.points) && r.index.Keys <= Elems(r.points) && Owned(h, n, r, Live(ops))
  {
    if ops != [] {
      var before, op := ops[..|ops| - 1], ops[|ops| - 1];
      ReachableOwnership(h, n, before);
      match op
      case Add(s) => AddKeepsAgreement(h, n, Run(h, n, before), s, Live(before));
      case Remove(s) => RemoveKeepsOwnership(h, n, Run(h, n, before), s, Live(before));
    }
  }

  /** Hence GetSlot never names a removed slot, collisions and panics included. */
  lemma GetSlotIsLive(h: Hash, n: nat, ops: seq<Op>, key: string)
    ensures GetSlot(h, Run(h, n, ops), key) in Live(ops) + {""}
  {
    ReachableOwnership(h, n, ops);
  }

  /** No removal of the history panics over positions of its own slot. */
  ghost predicate Harmless(h: Hash, n: nat, ops: seq<Op>) {
    ops == [] || (
      var before, op := ops[..|ops| - 1], ops[|ops| - 1];
      && Harmless(h, n, before)
      && (op.Remove? && RemovePanics(n, Run(h, n, before)) ==>
            SlotHashes(h, n, op.slot) !! Elems(Run(h, n, before).points)))
  }

  /** List and index hold the same positions now and did so after every earlier call. */
  ghost predicate AgreesThroughout(h: Hash, n: nat, ops: seq<Op>) {
    Agrees(Run(h, n, ops)) && (ops == [] || AgreesThroughout(h, n, ops[..|ops| - 1]))
  }

  /** List and index agree throughout a history, collisions or not, exactly when it is harmless. */
  lemma {:induction false} AgreementIsExact(h: Hash, n: nat, ops: seq<Op>)
    ensures AgreesThroughout(h, n, ops) <==> Harmless(h, n, ops)
  {
    if ops != [] {
      var before, op := ops[..|ops| - 1], ops[|ops| - 1];
      AgreementIsExact(h, n, before);
      ReachableOwnership(h, n, before);
      if AgreesThroughout(h, n, before) {
        match op
        case Add(s) => AddKeepsAgreement(h, n, Run(h, n, before), s, Live(before));
        case Remove(s) => RemoveKeepsAgreement(h, n, Run(h, n, before), s);
      }
    }
  }

  /** After a harmless history a non-empty ring always answers with a live slot. */
  lemma HarmlessAnswers(h: Hash, n: nat, ops: seq<Op>, key: string)
    requires Harmless(h, n, ops) && Run(h, n, ops).points != []
    ensures GetSlot(h, Run(h, n, ops), key) in Live(ops)
  {
    AgreementIsExact(h, n, ops);
    ReachableOwnership(h, n, ops);
    assert Clockwise(Run(h, n, ops).points, h(key)) in Elems(Run(h, n, ops).points);
  }

  // ---------- what needs distinct positions ----------

  /** The ring holds exactly the positions of the live slots, each slot's full share of them. */
  ghost predicate Represents(h: Hash, n: nat, r: Ring, live: set<string>) {
    && Agrees(r)
    && r.index.Keys == Points(h, n, live)
    && Owned(h, n, r, live)
    && forall s :: s in live ==> multiset(SlotSeq(h, n, s)) <= multiset(r.points)
  }

  lemma PointsWith(h: Hash, n: nat, live: set<string>, slot: string)
    ensures Points(h, n, live + {slot}) == Points(h, n, live) + SlotHashes(h, n, slot)
  {
  }

  lemma AddKeepsShares(h: Hash, n: nat, r: Ring, slot: string, other: string)
    requires other == slot || multiset(SlotSeq(h, n, other)) <= multiset(r.points)
    ensures multiset(SlotSeq(h, n, other)) <= multiset(AddSlot(h, n, r, slot).points)
  {
    AddedCounts(h, n, r, slot);
  }

  lemma RepresentsAdd(h: Hash, n: nat, r: Ring, live: set<string>, slot: string)
    requires Represents(h, n, r, live)
    ensures Represents(h, n, AddSlot(h, n, r, slot), live + {slot})
  {
    AddKeepsAgreement(h, n, r, slot, live);
    PointsWith(h, n, live, slot);
    forall s | s in live + {slot} ensures multiset(SlotSeq(h, n, s)) <= multiset(AddSlot(h, n, r, slot).points) {
      AddKeepsShares(h, n, r, slot, s);
    }
  }

  /** With distinct positions a removal panics only on an empty ring, where it changes nothing. */
  lemma PanicsOnlyWhenEmpty(h: Hash, n: nat, r: Ring, live: set<string>)
    requires Represents(h, n, r, live)
    ensures RemovePanics(n, r) <==> 0 < n && live == {}
  {
    NoElems(r.points);
    if live != {} {
      var s :| s in live;
      var rest := multiset(r.points) - multiset(SlotSeq(h, n, s));
      assert multiset(r.points) == multiset(SlotSeq(h, n, s)) + rest;
      assert |multiset(r.points)| == |r.points| && |multiset(SlotSeq(h, n, s))| == n;
    }
  }

  lemma RemoveKeepsShares(h: Hash, n: nat, r: Ring, slot: string, other: string)
    requires SlotHashes(h, n, other) !! SlotHashes(h, n, slot)
    requires multiset(SlotSeq(h, n, other)) <= multiset(r.points)
    ensures multiset(SlotSeq(h, n, other)) <= multiset(Filter(r.points, SlotHashes(h, n, slot)))
  {
    forall p: U32 ensures multiset(SlotSeq(h, n, other))[p] <= multiset(Filter(r.points, SlotHashes(h, n, slot)))[p] {
      FilterCounts(r.points, SlotHashes(h, n, slot), p);
      SlotSeqElems(h, n, other, p);
      assert p in SlotSeq(h, n, other) <==> p in multiset(SlotSeq(h, n, other));
    }
  }

  lemma PointsWithout(h: Hash, n: nat, live: set<string>, slot: string)
    requires Disjoint(h, n, live + {slot})
    ensures Points(h, n, live) - SlotHashes(h, n, slot) == Points(h, n, live - {slot})
  {
  }

  lemma RepresentsRemove(h: Hash, n: nat, r: Ring, live: set<string>, slot: string)
    requires Represents(h, n, r, live) && Disjoint(h, n, live + {slot})
    ensures Represents(h, n, RemoveSlot(h, n, r, slot), live - {slot})
  {
    var r' := RemoveSlot(h, n, r, slot);
    assert Owned(h, n, r', live - {slot}) by { RemoveKeepsOwnership(h, n, r, slot, live); }
    assert r'.index.Keys == Points(h, n, live - {slot}) by { PointsWithout(h, n, live, slot); }
    PanicsOnlyWhenEmpty(h, n, r, live);
    assert Agrees(r') by { RemoveKeepsAgreement(h, n, r, slot); }
    forall s | s in live - {slot} ensures multiset(SlotSeq(h, n, s)) <= multiset(r'.points) {
      RemoveKeepsShares(h, n, r, slot, s);
    }
  }

  lemma {:induction false} ReachableRepresents(h: Hash, n: nat, ops: seq<Op>, slots: set<string>)
    requires Named(ops) <= slots && Disjoint(h, n, slots)
    ensures Live(ops) <= slots
    ensures Represents(h, n, Run(h, n, ops), Live(ops))
  {
    if ops != [] {
      var before, op := ops[..|ops| - 1], ops[|ops| - 1];
      assert op.slot in Named(ops);
      assert Named(before) <= Named(ops);
      ReachableRepresents(h, n, before, slots);
      match op
      case Add(s) => RepresentsAdd(h, n, Run(h, n, before), Live(before), s);
      case Remove(s) => RepresentsRemove(h, n, Run(h, n, before), Live(before), s);
    }
  }

  lemma RepresentsPlaces(h: Hash, n: nat, r: Ring, live: set<string>, key: string)
    requires Represents(h, n, r, live)
    ensures Placed(h, n, live, key, GetSlot(h, r, key))
  {
    if r.points != [] {
      ClockwiseIsNearest(r.points, h(key));
      assert Clockwise(r.points, h(key)) in r.index;
    } else {
      assert Elems(r.points) == {};
    }
  }

  /** Refinement: after any history GetSlot is the reference placement of the live slots. */
  lemma Refinement(h: Hash, n: nat, ops: seq<Op>, key: string)
    requires Disjoint(h, n, Named(ops))
    ensures forall s :: Placed(h, n, Live(ops), key, s) <==> s == GetSlot(h, Run(h, n, ops), key)
  {
    ReachableRepresents(h, n, ops, Named(ops));
    var slot := GetSlot(h, Run(h, n, ops), key);
    RepresentsPlaces(h, n, Run(h, n, ops), Live(ops), key);
    forall s | Placed(h, n, Live(ops), key, s) ensures s == slot {
      PlacedUnique(h, n, Live(ops), key, s, slot);
    }
  }

  /** Two histories with the same live slots place every key alike. */
  lemma HistoryIndependence(h: Hash, n: nat, a: seq<Op>, b: seq<Op>, key: string)
    requires Disjoint(h, n, Named(a)) && Disjoint(h, n, Named(b)) && Live(a) == Live(b)
    ensures GetSlot(h, Run(h, n, a), key) == GetSlot(h, Run(h, n, b), key)
  {
    Refinement(h, n, a, key);
    Refinement(h, n, b, key);
    assert Placed(h, n, Live(a), key, GetSlot(h, Run(h, n, a), key));
  }

  lemma RemovalSpares(h: Hash, n: nat, r: Ring, live: set<string>, slot: string, key: string)
    requires Represents(h, n, r, live) && Disjoint(h, n, live + {slot})
    requires GetSlot(h, r, key) != slot
    ensures GetSlot(h, RemoveSlot(h, n, r, slot), key) == GetSlot(h, r, key)
  {
    NoElems(r.points);
    PanicsOnlyWhenEmpty(h, n, r, live);
    if r.points != [] {
      var p := Clockwise(r.points, h(key));
      assert p in Elems(r.points);
      assert r.index[p] in live && p in SlotHashes(h, n, r.index[p]);
      RemoveKeepsOthers(h, n, r, slot, key);
    }
  }

  lemma LiveAnswers(h: Hash, n: nat, r: Ring, live: set<string>, key: string)
    requires Represents(h, n, r, live) && 0 < n && live != {}
    ensures GetSlot(h, r, key) in live
  {
    var t :| t in live;
    assert h(VnodeName(t, 0)) in SlotHashes(h, n, t);
    assert h(VnodeName(t, 0)) in Points(h, n, live);
    RepresentsPlaces(h, n, r, live, key);
  }

  /** A slot that is alone on the ring gets every key. */
  lemma LoneSlot(h: Hash, n: nat, slot: string, key: string)
    requires 0 < n
    ensures GetSlot(h, AddSlot(h, n, EMPTY, slot), key) == slot
  {
    RepresentsAdd(h, n, EMPTY, {}, slot);
    assert {} + {slot} == {slot};
    LiveAnswers(h, n, AddSlot(h, n, EMPTY, slot), {slot}, key);
  }

  lemma RemovalMovesToLive(h: Hash, n: nat, r: Ring, live: set<string>, slot: string, key: string)
    requires Represents(h, n, r, live) && Disjoint(h, n, live + {slot})
    requires 0 < n && live - {slot} != {}
    ensures GetSlot(h, RemoveSlot(h, n, r, slot), key) in live - {slot}
  {
    RepresentsRemove(h, n, r, live, slot);
    LiveAnswers(h, n, RemoveSlot(h, n, r, slot), live - {slot}, key);
  }

  /** Minimal disruption: removing a slot moves only its own keys, and moves them to live slots. */
  lemma MinimalDisruption(h: Hash, n: nat, ops: seq<Op>, slot: string, key: string)
    requires Disjoint(h, n, Named(ops) + {slot})
    ensures GetSlot(h, Run(h, n, ops), key) != slot ==>
              GetSlot(h, Run(h, n, ops + [Remove(slot)]), key) == GetSlot(h, Run(h, n, ops), key)
    ensures 0 < n && Live(ops) - {slot} != {} ==>
              GetSlot(h, Run(h, n, ops + [Remove(slot)]), key) in Live(ops) - {slot}
  {
    RunSnoc(h, n, ops, Remove(slot));
    ReachableRepresents(h, n, ops, Named(ops) + {slot});
    assert Disjoint(h, n, Live(ops) + {slot});
    if GetSlot(h, Run(h, n, ops), key) != slot {
      RemovalSpares(h, n, Run(h, n, ops), Live(ops), slot, key);
    }
    if 0 < n && Live(ops) - {slot} != {} {
      RemovalMovesToLive(h, n, Run(h, n, ops), Live(ops), slot, key);
    }
  }

  // ---------- what a shared position can break ----------

  /** The positions left when slot a is added, slot b is added and slot a is removed. */
  function LeftBehind(h: Hash, n: nat, a: string, b: string): seq<U32> {
    Filter(AddSlot(h, n, AddSlot(h, n, EMPTY, a), b).points, SlotHashes(h, n, a))
  }

  lemma LeftCounts(h: Hash, n: nat, a: string, b: string, p: U32)
    ensures multiset(LeftBehind(h, n, a, b))[p] == if p in SlotHashes(h, n, a) then 0 else multiset(SlotSeq(h, n, b))[p]
  {
    var r := AddSlot(h, n, EMPTY, a);
    FilterCounts(AddSlot(h, n, r, b).points, SlotHashes(h, n, a), p);
    AddedCounts(h, n, r, b);
    AddedCounts(h, n, EMPTY, a);
    SlotSeqElems(h, n, a, p);
    assert p in SlotSeq(h, n, a) <==> p in multiset(SlotSeq(h, n, a));
  }

  lemma LeftElems(h: Hash, n: nat, a: string, b: string)
    ensures Elems(LeftBehind(h, n, a, b)) == SlotHashes(h, n, b) - SlotHashes(h, n, a)
  {
    forall p: U32 ensures p in LeftBehind(h, n, a, b) <==> p in SlotHashes(h, n, b) - SlotHashes(h, n, a) {
      LeftCounts(h, n, a, b, p);
      SlotSeqElems(h, n, b, p);
      assert p in LeftBehind(h, n, a, b) <==> p in multiset(LeftBehind(h, n, a, b));
      assert p in SlotSeq(h, n, b) <==> p in multiset(SlotSeq(h, n, b));
    }
  }

  lemma FewerIff(left: multiset<U32>, all: multiset<U32>, drop: set<U32>)
    requires forall p: U32 :: left[p] == if p in drop then 0 else all[p]
    ensures |left| < |all| <==> exists p :: p in drop && p in all
  {
    var lost := all - left;
    assert all == left + lost;
    if p :| p in drop && p in all {
      assert p in lost;
    } else {
      assert left == all;
    }
  }

  /** Slot b has lost some of its share exactly if it shares a position with slot a. */
  lemma LeftLength(h: Hash, n: nat, a: string, b: string)
    ensures |LeftBehind(h, n, a, b)| < n <==> !(SlotHashes(h, n, a) !! SlotHashes(h, n, b))
  {
    var left: seq<U32>, all: seq<U32> := LeftBehind(h, n, a, b), SlotSeq(h, n, b);
    forall p: U32 ensures multiset(left)[p] == if p in SlotHashes(h, n, a) then 0 else multiset(all)[p] {
      LeftCounts(h, n, a, b, p);
    }
    FewerIff(multiset(left), multiset(all), SlotHashes(h, n, a));
    assert |left| == |multiset(left)| && |all| == |multiset(all)|;
    forall p: U32 ensures p in multiset(all) <==> p in SlotHashes(h, n, b) {
      SlotSeqElems(h, n, b, p);
      assert p in all <==> p in multiset(all);
    }
  }

  lemma RunOfFour(h: Hash, n: nat, a: string, b: string)
    ensures var r := Run(h, n, [Add(a)] + [Add(b)] + [Remove(a)] + [Remove(b)]);
            && r == RemoveSlot(h, n, RemoveSlot(h, n, AddSlot(h, n, AddSlot(h, n, EMPTY, a), b), a), b)
            && r.index == map[]
  {
    RunSnoc(h, n, [], Add(a));
    assert [] + [Add(a)] == [Add(a)];
    RunSnoc(h, n, [Add(a)], Add(b));
    RunSnoc(h, n, [Add(a)] + [Add(b)], Remove(a));
    RunSnoc(h, n, [Add(a)] + [Add(b)] + [Remove(a)], Remove(b));
  }

  /** For every hash, replica count and pair of slots: after adding a, adding b, removing a and
      removing b, list and index agree exactly if the slots share no position or a holds all of
      b's.  Otherwise the last removal panics with the index emptied and the list untouched, and
      the ring, though not empty, answers no key. */
  lemma CollisionBreaksAgreement(h: Hash, n: nat, a: string, b: string, key: string)
    ensures var r := Run(h, n, [Add(a)] + [Add(b)] + [Remove(a)] + [Remove(b)]);
            && (Agrees(r) <==> SlotHashes(h, n, a) !! SlotHashes(h, n, b) || SlotHashes(h, n, b) <= SlotHashes(h, n, a))
            && (Agrees(r) <==> r.points == [])
            && r.index == map[] && GetSlot(h, r, key) == ""
  {
    var r := AddSlot(h, n, AddSlot(h, n, EMPTY, a), b);
    AddedLength(h, n, EMPTY, a);
    AddedLength(h, n, AddSlot(h, n, EMPTY, a), b);
    assert RemoveSlot(h, n, r, a).points == LeftBehind(h, n, a, b);
    LeftElems(h, n, a, b);
    LeftLength(h, n, a, b);
    FilterElems(LeftBehind(h, n, a, b), SlotHashes(h, n, b));
    RunOfFour(h, n, a, b);
    var last := Run(h, n, [Add(a)] + [Add(b)] + [Remove(a)] + [Remove(b)]);
    NoElems(last.points);
    NoElems(LeftBehind(h, n, a, b));
  }

  /** A hash under which slots "a" and "b" meet, for any replica count of two or more. */
  function Meeting(name: string): U32 {
    if name == VnodeName("b", 1) then 1 else 0
  }

  lemma SlotsCanMeet(n: nat)
    requires 2 <= n
    ensures !(SlotHashes(Meeting, n, "a") !! SlotHashes(Meeting, n, "b"))
    ensures !(SlotHashes(Meeting, n, "b") <= SlotHashes(Meeting, n, "a"))
  {
    if VnodeName("b", 0) == VnodeName("b", 1) { VnodeNameInjective("b", 0, "b", 1); }
    if VnodeName("a", 0) == VnodeName("b", 1) { VnodeNameInjective("a", 0, "b", 1); }
    assert Meeting(VnodeName("a", 0)) == 0 && Meeting(VnodeName("b", 0)) == 0 && Meeting(VnodeName("b", 1)) == 1;
    assert 0 in SlotHashes(Meeting, n, "a") && 0 in SlotHashes(Meeting, n, "b") && 1 in SlotHashes(Meeting, n, "b");
    forall i | 0 <= i < n ensures Meeting(VnodeName("a", i)) == 0 {
      if VnodeName("a", i) == VnodeName("b", 1) { VnodeNameInjective("a", i, "b", 1); }
    }
    assert 1 !in SlotHashes(Meeting, n, "a");
  }
}
