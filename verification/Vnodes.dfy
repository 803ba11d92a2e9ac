/**
  Virtual nodes of a slot: the names `slot#0`, `slot#1`, ... and their positions on the ring.
  Murmur3 is a parameter: any total function from strings to 32-bit values.
 */
module Vnodes {

  const RING_SIZE: int := 0x1_0000_0000

  type U32 = x: int | 0 <= x < RING_SIZE

  type Hash = string -> U32

  function Digit(d: nat): char
    requires d < 10
  {
    '0' + d as char
  }

  /** Decimal rendering of a natural number (strconv.Itoa). */
  function Itoa(n: nat): (r: string)
    ensures r != []
    ensures forall c :: c in r ==> '0' <= c <= '9'
  {
    if n < 10 then [Digit(n)] else Itoa(n / 10) + [Digit(n % 10)]
  }

  /** The usual way to write a number: digits, with no zero in front of others. */
  predicate Decimal(s: string) {
    && s != []
    && (forall i :: 0 <= i < |s| ==> '0' <= s[i] <= '9')
    && (|s| > 1 ==> s[0] != '0')
  }

  /** The number that digits spell, most significant first. */
  function Value(s: string): nat
    requires forall i :: 0 <= i < |s| ==> '0' <= s[i] <= '9'
  {
    if s == [] then 0 else 10 * Value(s[..|s| - 1]) + (s[|s| - 1] as int - '0' as int)
  }

  /** Itoa writes a number in the usual way ... */
  lemma {:induction false} ItoaSpells(n: nat)
    ensures Decimal(Itoa(n)) && Value(Itoa(n)) == n
    ensures n > 0 ==> Itoa(n)[0] != '0'
  {
    var s := Itoa(n);
    if n >= 10 {
      ItoaSpells(n / 10);
      assert s[..|s| - 1] == Itoa(n / 10);
    } else {
      assert s[..0] == [];
    }
  }

  lemma {:induction false} ValueIsPositive(s: string)
    requires Decimal(s) && s[0] != '0'
    ensures Value(s) > 0
  {
    if |s| > 1 { ValueIsPositive(s[..|s| - 1]); }
  }

  /** ... and there is no other. */
  lemma {:induction false} DecimalIsItoa(s: string)
    requires Decimal(s)
    ensures s == Itoa(Value(s))
  {
    var front := s[..|s| - 1];
    if front == [] {
      assert s == [s[0]];
    } else {
      DecimalIsItoa(front);
      ValueIsPositive(front);
      assert s == front + [s[|s| - 1]];
    }
  }

  function VnodeName(slot: string, i: nat): (name: string) {
    slot + "#" + Itoa(i)
  }

  /** The i-th vnode of a slot is named by the slot, a mark and the number i. */
  lemma VnodeNameSpelled(slot: string, i: nat)
    ensures var name := VnodeName(slot, i);
            && |slot| < |name| && name[..|slot|] == slot && name[|slot|] == '#'
            && Decimal(name[|slot| + 1..]) && Value(name[|slot| + 1..]) == i
  {
    assert VnodeName(slot, i)[|slot| + 1..] == Itoa(i);
    ItoaSpells(i);
  }

  lemma NoLaterMark(slot: string, i: nat, k: nat)
    requires |slot| < k < |VnodeName(slot, i)|
    ensures VnodeName(slot, i)[k] != '#'
  {
    assert VnodeName(slot, i)[k] in Itoa(i);
  }

  /** The last '#' splits a vnode name, so no two vnodes share a name. */
  lemma VnodeNameInjective(s: string, i: nat, t: string, j: nat)
    requires VnodeName(s, i) == VnodeName(t, j)
    ensures s == t && i == j
  {
    var name := VnodeName(s, i);
    assert name[|s|] == '#' && name[|t|] == '#';
    if |s| < |t| { NoLaterMark(s, i, |t|); }
    if |t| < |s| { NoLaterMark(t, j, |s|); }
    assert s == name[..|s|] && t == name[..|t|];
    assert Itoa(i) == name[|s| + 1..] && Itoa(j) == name[|t| + 1..];
    ItoaSpells(i);
    ItoaSpells(j);
  }

  /** The positions AddSlot appends for a slot, in loop order. */
  function SlotSeq(h: Hash, n: nat, slot: string): (r: seq<U32>)
    ensures |r| == n
  {
    seq<U32>(n, i requires 0 <= i < n => h(VnodeName(slot, i)))
  }

  function SlotHashes(h: Hash, n: nat, slot: string): set<U32> {
    set i | 0 <= i < n :: h(VnodeName(slot, i))
  }

  /** A slot's positions are the hashes of its name, a mark and a number below n. */
  lemma SlotHashesSpelled(h: Hash, n: nat, slot: string, p: U32)
    ensures p in SlotHashes(h, n, slot) <==>
            exists digits :: Decimal(digits) && Value(digits) < n && h(slot + "#" + digits) == p
  {
    if p in SlotHashes(h, n, slot) {
      var i :| 0 <= i < n && h(VnodeName(slot, i)) == p;
      ItoaSpells(i);
      assert h(slot + "#" + Itoa(i)) == p;
    }
    forall digits | Decimal(digits) && Value(digits) < n && h(slot + "#" + digits) == p
      ensures p in SlotHashes(h, n, slot)
    {
      DecimalIsItoa(digits);
      assert VnodeName(slot, Value(digits)) == slot + "#" + digits;
    }
  }

  lemma SlotSeqElems(h: Hash, n: nat, slot: string, p: U32)
    ensures p in SlotSeq(h, n, slot) <==> p in SlotHashes(h, n, slot)
  {
    if p in SlotHashes(h, n, slot) {
      var i :| 0 <= i < n && h(VnodeName(slot, i)) == p;
      assert SlotSeq(h, n, slot)[i] == p;
    }
  }

  lemma SlotSeqSet(h: Hash, n: nat, slot: string)
    ensures (set p | p in SlotSeq(h, n, slot)) == SlotHashes(h, n, slot)
  {
    forall p: U32 ensures p in SlotSeq(h, n, slot) <==> p in SlotHashes(h, n, slot) {
      SlotSeqElems(h, n, slot, p);
    }
  }

  /** Distinct slots of `slots` share no ring position. */
  ghost predicate Disjoint(h: Hash, n: nat, slots: set<string>) {
    forall s, t :: s in slots && t in slots && s != t ==> SlotHashes(h, n, s) !! SlotHashes(h, n, t)
  }

  /** Slots can only meet on the ring through a genuine collision of the hash on two different strings. */
  lemma SharedPositionIsHashCollision(h: Hash, n: nat, s: string, t: string)
    requires s != t && !(SlotHashes(h, n, s) !! SlotHashes(h, n, t))
    ensures exists i, j ::
              && 0 <= i < n && 0 <= j < n
              && VnodeName(s, i) != VnodeName(t, j)
              && h(VnodeName(s, i)) == h(VnodeName(t, j))
  {
    var p :| p in SlotHashes(h, n, s) && p in SlotHashes(h, n, t);
    var i :| 0 <= i < n && h(VnodeName(s, i)) == p;
    var j :| 0 <= j < n && h(VnodeName(t, j)) == p;
    if VnodeName(s, i) == VnodeName(t, j) {
      VnodeNameInjective(s, i, t, j);
      assert false;
    }
  }
}
