/**
  Base-128 varints as binary.Uvarint reads them: at most ten bytes, the tenth at most 1, and a
  non-positive byte count for a truncated or overflowing value.
 */
module Varints {

  type Byte = x: int | 0 <= x < 256

  const TWO_63: int := 0x8000_0000_0000_0000
  const TWO_64: int := 0x1_0000_0000_0000_0000
  const MAX_LEN: int := 10

  /** The number that the bytes up to the first one without a continuation bit spell, least
      significant seven bits first. */
  function Spell(b: seq<Byte>): nat {
    if b == [] then 0 else if b[0] < 128 then b[0] else b[0] % 128 + 128 * Spell(b[1..])
  }

  /** Index of the first byte without a continuation bit, or |b|. */
  function Terminator(b: seq<Byte>): (i: nat)
    ensures i <= |b|
  {
    if b == [] || b[0] < 128 then 0 else 1 + Terminator(b[1..])
  }

  /** Value and byte count; the count is 0 for a truncated and negative for an overflowing varint. */
  function Uvarint(b: seq<Byte>): (nat, int) {
    var t := Terminator(b);
    if t >= MAX_LEN && |b| > MAX_LEN then (0, -(MAX_LEN + 1))
    else if t == |b| then (0, 0)
    else if t == MAX_LEN - 1 && b[t] > 1 then (0, -MAX_LEN)
    else (Spell(b), t + 1)
  }

  /** A well-formed varint: continuation bits on all bytes but the last, value below 2^64. */
  predicate IsVarint(b: seq<Byte>) {
    && 0 < |b| <= MAX_LEN
    && (forall i :: 0 <= i < |b| - 1 ==> 128 <= b[i])
    && b[|b| - 1] < 128
    && (|b| == MAX_LEN ==> b[MAX_LEN - 1] <= 1)
  }

  lemma {:induction false} TerminatorBytes(b: seq<Byte>)
    ensures forall j :: 0 <= j < Terminator(b) ==> 128 <= b[j]
    ensures Terminator(b) < |b| ==> b[Terminator(b)] < 128
  {
    if b != [] && b[0] >= 128 { TerminatorBytes(b[1..]); }
  }

  lemma {:induction false} TerminatorUnique(b: seq<Byte>, t: nat)
    requires t < |b| && b[t] < 128 && forall j :: 0 <= j < t ==> 128 <= b[j]
    ensures Terminator(b) == t
  {
    if t > 0 { TerminatorUnique(b[1..], t - 1); }
  }

  lemma {:induction false} TerminatorAfter(b: seq<Byte>, i: nat)
    requires i <= |b| && forall j :: 0 <= j < i ==> 128 <= b[j]
    ensures i <= Terminator(b)
  {
    if i > 0 { TerminatorAfter(b[1..], i - 1); }
  }

  /** Bytes after the terminator do not count. */
  lemma {:induction false} SpellPrefix(b: seq<Byte>, t: nat)
    requires t < |b| && b[t] < 128 && forall j :: 0 <= j < t ==> 128 <= b[j]
    ensures Spell(b) == Spell(b[..t + 1])
  {
    if t > 0 {
      assert b[..t + 1][1..] == b[1..][..t];
      SpellPrefix(b[1..], t - 1);
    }
  }

  function Power(k: nat): nat {
    if k == 0 then 1 else 128 * Power(k - 1)
  }

  lemma PowerNine()
    ensures Power(9) == TWO_63
  {
    assert Power(3) == 128 * 128 * 128;
    assert Power(6) == 128 * 128 * 128 * Power(3);
    assert Power(9) == 128 * 128 * 128 * Power(6);
  }

  lemma {:induction false} PowerGrows(j: nat, k: nat)
    requires j <= k
    ensures Power(j) <= Power(k)
    decreases k - j
  {
    if j < k { PowerGrows(j + 1, k); }
  }

  lemma {:induction false} SpellBound(b: seq<Byte>)
    requires b != [] && b[|b| - 1] < 128 && forall i :: 0 <= i < |b| - 1 ==> 128 <= b[i]
    ensures Spell(b) < (b[|b| - 1] + 1) * Power(|b| - 1)
  {
    if |b| > 1 {
      var c := b[1..];
      SpellBound(c);
      assert Spell(c) + 1 <= (b[|b| - 1] + 1) * Power(|b| - 2);
      assert 128 * ((b[|b| - 1] + 1) * Power(|b| - 2)) == (b[|b| - 1] + 1) * Power(|b| - 1);
    }
  }

  lemma VarintFits(b: seq<Byte>)
    requires IsVarint(b)
    ensures Spell(b) < TWO_64
  {
    PowerNine();
    SpellBound(b);
    var last, weight := b[|b| - 1], Power(|b| - 1);
    if |b| < MAX_LEN {
      PowerGrows(|b|, 9);
      assert (last + 1) * weight <= 128 * weight == Power(|b|);
    }
  }

  /** A well-formed varint is read back whatever bytes follow it. */
  lemma UvarintPrefix(head: seq<Byte>, rest: seq<Byte>)
    requires IsVarint(head)
    ensures Uvarint(head + rest) == (Spell(head), |head|) && Spell(head) < TWO_64
  {
    var b, t := head + rest, |head| - 1;
    assert b[..t + 1] == head;
    TerminatorUnique(b, t);
    SpellPrefix(b, t);
    VarintFits(head);
  }

  /** A positive count means that many bytes form a well-formed varint of the value returned. */
  lemma UvarintSound(b: seq<Byte>)
    requires Uvarint(b).1 > 0
    ensures var (v, n) := Uvarint(b);
            n <= |b| && IsVarint(b[..n]) && v == Spell(b[..n]) && v < TWO_64
  {
    var t := Terminator(b);
    TerminatorBytes(b);
    SpellPrefix(b, t);
    assert IsVarint(b[..t + 1]);
    VarintFits(b[..t + 1]);
  }

  lemma WeighDigit(weight: nat, c: nat, rest: nat)
    ensures weight * (c + 128 * rest) == c * weight + weight * 128 * rest
  {
  }

  /** Spell with the first digit counting `weight`, in the order the reading loop adds digits. */
  function Weighted(b: seq<Byte>, weight: nat): nat {
    if b == [] then 0
    else if b[0] < 128 then b[0] * weight
    else b[0] % 128 * weight + Weighted(b[1..], weight * 128)
  }

  lemma {:induction false} WeightedIsSpell(b: seq<Byte>, weight: nat)
    ensures Weighted(b, weight) == weight * Spell(b)
    decreases |b|
  {
    if b != [] && b[0] >= 128 {
      WeightedIsSpell(b[1..], weight * 128);
      WeighDigit(weight, b[0] % 128, Spell(b[1..]));
    }
  }

  /** The outcome of the reading loop from index i, with x read so far. */
  function ReadLoop(b: seq<Byte>, i: nat, x: nat, weight: nat): (nat, int)
    decreases |b| - i
  {
    if i >= |b| then (0, 0)
    else if i == MAX_LEN then (0, -(i + 1))
    else if b[i] < 128 then
      if i == MAX_LEN - 1 && b[i] > 1 then (0, -(i + 1)) else (x + b[i] * weight, i + 1)
    else ReadLoop(b, i + 1, x + b[i] % 128 * weight, weight * 128)
  }

  lemma {:induction false} ReadLoopReads(b: seq<Byte>, i: nat, x: nat, weight: nat)
    requires i <= |b| && i <= MAX_LEN && forall j :: 0 <= j < i ==> 128 <= b[j]
    ensures ReadLoop(b, i, x, weight) ==
              if Uvarint(b).1 <= 0 then Uvarint(b) else (x + Weighted(b[i..], weight), Uvarint(b).1)
    decreases |b| - i
  {
    if i == |b| || i == MAX_LEN {
      TerminatorAfter(b, i);
    } else if b[i] < 128 {
      TerminatorUnique(b, i);
    } else {
      ReadLoopReads(b, i + 1, x + b[i] % 128 * weight, weight * 128);
      assert b[i..][1..] == b[i + 1..];
    }
  }

  lemma ReadLoopIsUvarint(b: seq<Byte>)
    ensures ReadLoop(b, 0, 0, 1) == Uvarint(b)
  {
    ReadLoopReads(b, 0, 0, 1);
    assert b[0..] == b;
    WeightedIsSpell(b, 1);
  }

  method ReadUvarint(b: seq<Byte>) returns (x: nat, n: int)
    ensures (x, n) == Uvarint(b)
  {
    ReadLoopIsUvarint(b);
    x := 0;
    var weight: nat := 1;
    var i := 0;
    while i < |b|
      invariant 0 <= i <= |b|
      invariant ReadLoop(b, i, x, weight) == ReadLoop(b, 0, 0, 1)
    {
      if i == MAX_LEN {
        return 0, -(i + 1);
      }
      if b[i] < 128 {
        if i == MAX_LEN - 1 && b[i] > 1 {
          return 0, -(i + 1);
        }
        return x + b[i] * weight, i + 1;
      }
      x := x + b[i] % 128 * weight;
      weight := weight * 128;
      i := i + 1;
    }
    return 0, 0;
  }

  /** The canonical encoding (binary.PutUvarint). */
  function Encode(v: nat): (b: seq<Byte>)
    ensures b != []
  {
    if v < 128 then [v] else [v % 128 + 128] + Encode(v / 128)
  }

  lemma {:induction false} EncodeSpells(v: nat)
    ensures Spell(Encode(v)) == v
    ensures forall i :: 0 <= i < |Encode(v)| - 1 ==> 128 <= Encode(v)[i]
    ensures Encode(v)[|Encode(v)| - 1] < 128
  {
    if v >= 128 {
      EncodeSpells(v / 128);
      assert Encode(v)[1..] == Encode(v / 128);
    }
  }

  lemma {:induction false} EncodeLength(v: nat, k: nat)
    requires 0 < k && v < 2 * Power(k - 1)
    ensures |Encode(v)| <= k
    ensures |Encode(v)| == k ==> Encode(v)[k - 1] <= 1 || v < 128
    decreases k
  {
    if v >= 128 {
      assert k > 1 && v / 128 < 2 * Power(k - 2);
      EncodeLength(v / 128, k - 1);
    }
  }

  lemma EncodeIsVarint(v: nat)
    requires v < TWO_64
    ensures IsVarint(Encode(v)) && Spell(Encode(v)) == v
  {
    PowerNine();
    EncodeSpells(v);
    EncodeLength(v, MAX_LEN);
  }

  /** Every 64-bit value survives encoding, whatever bytes follow it. */
  lemma UvarintRoundTrip(v: nat, rest: seq<Byte>)
    requires v < TWO_64
    ensures Uvarint(Encode(v) + rest) == (v, |Encode(v)|)
  {
    EncodeIsVarint(v);
    UvarintPrefix(Encode(v), rest);
  }
}
