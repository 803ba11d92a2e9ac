/**
  Every way the task-token walker can fail without meeting a wrapped sum: complete skipped fields,
  then a rest that shows why.
 */
module TokenFailures {
  import opened Rounds
  import opened Varints
  import opened TokenWalk
  import opened TaskTokens

  // ---------- the wire format's view ----------

  /** The bytes begin with a well-formed varint. */
  ghost predicate VarintAhead(b: seq<Byte>) {
    exists n :: 0 <= n <= |b| && IsVarint(b[..n])
  }

  ghost predicate OverlongAs(b: seq<Byte>, at: nat, length: seq<Byte>, s: seq<Byte>) {
    b == length + s && IsVarint(length) && |s| < Spell(length) && at + |length| + Spell(length) < TWO_63
  }

  /** The bytes declare a length that goes beyond them. */
  ghost predicate Overlong(b: seq<Byte>, at: nat) {
    exists length, s :: OverlongAs(b, at, length, s)
  }

  /** What is wrong with the bytes b, from index `at` to the end, behind a tag.  A field that is cut
      off counts as the last one if it would have been skipped. */
  ghost predicate BodyFault(tag: nat, b: seq<Byte>, at: nat, error: TokenError) {
    match error
    case BadVarint => tag % 8 == 0 && !VarintAhead(b)
    case BadLength => tag % 8 == 2 && !VarintAhead(b)
    case Unsupported(wireType) => tag % 8 == wireType && wireType !in {0, 1, 2, 5}
    case PastEnd => tag == ID_TAG && Overlong(b, at)
    case NotFound =>
      || (tag % 8 == 1 && |b| < 8 && at + 8 < TWO_63)
      || (tag % 8 == 5 && |b| < 4 && at + 4 < TWO_63)
      || (tag % 8 == 2 && tag != ID_TAG && Overlong(b, at))
    case BadTag(_) => false
  }

  ghost predicate FaultAs(rest: seq<Byte>, at: nat, head: seq<Byte>, b: seq<Byte>, error: TokenError) {
    rest == head + b && IsVarint(head) && BodyFault(Spell(head), b, at + |head|, error)
  }

  /** What is wrong with the rest of a token, from index `at` to the end. */
  ghost predicate Fault(rest: seq<Byte>, at: nat, error: TokenError) {
    || (rest == [] && error == NotFound)
    || (rest != [] && !VarintAhead(rest) && error == BadTag(at))
    || exists head, b :: FaultAs(rest, at, head, b, error)
  }

  ghost predicate FailsAs(token: seq<Byte>, fields: seq<seq<Byte>>, rest: seq<Byte>, error: TokenError) {
    && token == Concat(fields) + rest
    && (forall k :: 0 <= k < |fields| ==> Skips(fields[k]))
    && Fault(rest, |token| - |rest|, error)
  }

  // ---------- the scanner's view ----------

  /** A scan that makes the loop fail on a token of the given size, without a wrapped sum. */
  predicate FailsWith(scan: Scan, size: nat, error: TokenError) {
    match scan
    case Bad(e) => e == error
    case Take(_, end) => size < end < TWO_63 && error == PastEnd
    case Skip(end) => size < end < TWO_63 && error == NotFound
  }

  /** The reader finds a varint exactly where there is one. */
  lemma ReaderFinds(read: Reader, b: seq<Byte>)
    requires Reads(read) && ReadsOnly(read)
    ensures read(b).1 > 0 <==> VarintAhead(b)
  {
    if VarintAhead(b) {
      var n :| 0 <= n <= |b| && IsVarint(b[..n]);
      assert b == b[..n] + b[n..];
      assert read(b[..n] + b[n..]) == (Spell(b[..n]), n);
    }
  }

  lemma OverlongIff(read: Reader, b: seq<Byte>, at: nat)
    requires Reads(read) && ReadsOnly(read)
    ensures Overlong(b, at) <==>
            var (l, m) := read(b);
            m > 0 && |b| < m + l && at + m + l < TWO_63
  {
    var (l, m) := read(b);
    if m > 0 && |b| < m + l && at + m + l < TWO_63 {
      assert OverlongAs(b, at, b[..m], b[m..]);
    }
    forall length, s | OverlongAs(b, at, length, s) ensures m > 0 && |b| < m + l && at + m + l < TWO_63 {
      assert read(length + s) == (Spell(length), |length|);
    }
  }

  lemma BodyFaultExact(read: Reader, tag: nat, b: seq<Byte>, at: nat, error: TokenError)
    requires Reads(read) && ReadsOnly(read)
    ensures FailsWith(ScanBody(read, b, at, tag), at + |b|, error) <==> BodyFault(tag, b, at, error)
  {
    ReaderFinds(read, b);
    OverlongIff(read, b, at);
  }

  lemma TaggedScan(read: Reader, head: seq<Byte>, b: seq<Byte>, at: nat, error: TokenError)
    requires Reads(read) && IsVarint(head)
    ensures FailsWith(ScanField(read, head + b, at), at + |head + b|, error) <==>
            FailsWith(ScanBody(read, b, at + |head|, Spell(head)), at + |head| + |b|, error)
  {
    TagForward(read, head, b, at);
  }

  lemma TaggedFaultExact(read: Reader, head: seq<Byte>, b: seq<Byte>, at: nat, error: TokenError)
    requires Reads(read) && ReadsOnly(read) && IsVarint(head)
    ensures FailsWith(ScanField(read, head + b, at), at + |head + b|, error) <==> FaultAs(head + b, at, head, b, error)
  {
    TaggedScan(read, head, b, at, error);
    BodyFaultExact(read, Spell(head), b, at + |head|, error);
  }

  lemma FaultHasTag(rest: seq<Byte>, at: nat, error: TokenError)
    ensures (exists head, b :: FaultAs(rest, at, head, b, error)) ==> VarintAhead(rest)
  {
    if head, b :| FaultAs(rest, at, head, b, error) {
      assert rest[..|head|] == head;
    }
  }

  lemma Untagged(read: Reader, rest: seq<Byte>, at: nat, error: TokenError)
    requires Reads(read) && ReadsOnly(read) && rest != [] && !VarintAhead(rest)
    ensures ScanField(read, rest, at) == Bad(BadTag(at))
    ensures Fault(rest, at, error) <==> error == BadTag(at)
  {
    ReaderFinds(read, rest);
    FaultHasTag(rest, at, error);
  }

  lemma FieldFaultExact(read: Reader, rest: seq<Byte>, at: nat, error: TokenError)
    requires Reads(read) && ReadsOnly(read) && rest != []
    ensures FailsWith(ScanField(read, rest, at), at + |rest|, error) <==> Fault(rest, at, error)
  {
    if VarintAhead(rest) {
      var n :| 0 <= n <= |rest| && IsVarint(rest[..n]);
      assert rest == rest[..n] + rest[n..];
      TaggedFaultExact(read, rest[..n], rest[n..], at, error);
      forall head, b | FaultAs(rest, at, head, b, error)
        ensures FailsWith(ScanField(read, rest, at), at + |rest|, error)
      {
        TaggedFaultExact(read, head, b, at, error);
      }
    } else {
      Untagged(read, rest, at, error);
    }
  }

  // ---------- the loop ----------

  /** A path to a failing scan, or to the end, makes the loop fail ... */
  lemma PathFails(scan: Scanner, token: seq<Byte>, ends: seq<nat>, j: nat, error: TokenError)
    requires |token| < TWO_63 && Path(scan, token, 0, ends, j) && j < |token|
    requires FailsWith(scan(token, j), |token|, error)
    ensures Returns(Loop(scan, token), 0, Failed(error)) && !WalkWraps(scan, token, 0)
  {
    var next := Loop(scan, token);
    PathWalk(scan, token, 0, ends, j, 1);
    PathWalk(scan, token, 0, ends, j, 2);
    assert Walk(next, j, 1) == next(j);
    if next(j).Go? {
      assert Walk(next, j, 2) == Walk(next, next(j).index, 1) == next(next(j).index);
      assert Walk(next, 0, |ends| + 2) == Stop(Failed(error));
    } else {
      assert Walk(next, 0, |ends| + 1) == Stop(Failed(error));
    }
    forall k: nat | Walk(next, 0, k).Go? ensures !WrapsAt(scan, token, Walk(next, 0, k).index) {
      PathMeetsNoWrap(scan, token, 0, ends, j, k);
    }
  }

  lemma PathEnds(scan: Scanner, token: seq<Byte>, ends: seq<nat>)
    requires |token| < TWO_63 && Path(scan, token, 0, ends, |token|)
    ensures Returns(Loop(scan, token), 0, Failed(NotFound)) && !WalkWraps(scan, token, 0)
  {
    PathToEnd(scan, token, ends);
    forall k: nat | Walk(Loop(scan, token), 0, k).Go?
      ensures !WrapsAt(scan, token, Walk(Loop(scan, token), 0, k).index)
    {
      PathMeetsNoWrap(scan, token, 0, ends, |token|, k);
    }
  }

  /** ... and a loop that fails without a wrapped sum has come that way. */
  lemma {:induction false} FailureIsPath(scan: Scanner, token: seq<Byte>, i: nat, error: TokenError, k: nat)
    returns (ends: seq<nat>, j: nat)
    requires Bounded(scan, token) && i <= |token| < TWO_63
    requires Walk(Loop(scan, token), i, k) == Stop(Failed(error)) && !WalkWraps(scan, token, i)
    ensures Path(scan, token, i, ends, j) && j <= |token|
    ensures if j == |token| then error == NotFound else FailsWith(scan(token, j), |token|, error)
    decreases k
  {
    NoWrapFrom(scan, token, i);
    if i == |token| || !scan(token, i).Skip? {
      ends, j := [], i;
    } else {
      var end := scan(token, i).end;
      if end > |token| {
        assert Walk(Loop(scan, token), end, k - 1) == Stop(Failed(error));
        ends, j := [], i;
      } else {
        ends, j := FailureIsPath(scan, token, end, error, k - 1);
        var all := [end] + ends;
        assert all[0] == end && all[1..] == ends;
        ends := all;
      }
    }
  }

  /** The scanner fails on a token exactly where the rest of it has a fault. */
  ghost predicate SeesFaults(scan: Scanner, token: seq<Byte>) {
    forall j: nat, error :: j < |token| ==>
      (FailsWith(scan(token, j), |token|, error) <==> Fault(token[j..], j, error))
  }

  lemma TokenSeesFaults(token: seq<Byte>)
    ensures SeesFaults(ScanAt, token)
  {
    UvarintReads();
    forall j: nat, error | j < |token|
      ensures FailsWith(ScanAt(token, j), |token|, error) <==> Fault(token[j..], j, error)
    {
      FieldFaultExact(Uvarint, token[j..], j, error);
    }
  }

  lemma EmptyFault(at: nat, error: TokenError)
    ensures Fault([], at, error) <==> error == NotFound
  {
  }

  /** At index j the loop fails. */
  predicate Reached(scan: Scanner, token: seq<Byte>, j: int, error: TokenError) {
    0 <= j <= |token| && if j == |token| then error == NotFound else FailsWith(scan(token, j), |token|, error)
  }

  lemma FaultIsReached(scan: Scanner, token: seq<Byte>, rest: seq<Byte>, j: nat, error: TokenError)
    requires SeesFaults(scan, token) && j == |token| - |rest| && token[j..] == rest && Fault(rest, j, error)
    ensures Reached(scan, token, j, error)
  {
    EmptyFault(j, error);
  }

  lemma SkipsGivePath(token: seq<Byte>, fields: seq<seq<Byte>>, rest: seq<Byte>) returns (ends: seq<nat>, j: nat)
    requires token == Concat(fields) + rest
    requires forall k :: 0 <= k < |fields| ==> Skips(fields[k])
    ensures Path(ScanAt, token, 0, ends, j) && j == |token| - |rest| && token[j..] == rest
  {
    forall k | 0 <= k < |fields| ensures StepsOver(ScanAt, fields[k]) { SkipsAreSteppedOver(fields[k]); }
    assert token[0..] == token;
    ends, j := FieldsGivePath(ScanAt, token, 0, fields, rest);
    assert |token[j..]| == |token| - j;
  }

  lemma SkipsToFailure(token: seq<Byte>, fields: seq<seq<Byte>>, rest: seq<Byte>, error: TokenError)
    requires |token| < TWO_63 && token == Concat(fields) + rest
    requires forall k :: 0 <= k < |fields| ==> Skips(fields[k])
    requires Reached(ScanAt, token, |token| - |rest|, error)
    ensures Returns(Loop(ScanAt, token), 0, Failed(error)) && !WalkWraps(ScanAt, token, 0)
  {
    var ends, j := SkipsGivePath(token, fields, rest);
    if j == |token| { PathEnds(ScanAt, token, ends); } else { PathFails(ScanAt, token, ends, j, error); }
  }

  lemma FaultFails(token: seq<Byte>, fields: seq<seq<Byte>>, rest: seq<Byte>, error: TokenError)
    requires |token| < TWO_63 && FailsAs(token, fields, rest, error)
    ensures Returns(Loop(ScanAt, token), 0, Failed(error)) && !WalkWraps(ScanAt, token, 0)
  {
    TokenSeesFaults(token);
    FaultIsReached(ScanAt, token, rest, |token| - |rest|, error);
    SkipsToFailure(token, fields, rest, error);
  }

  lemma FailureHasFault(scan: Scanner, token: seq<Byte>, error: TokenError)
    returns (fields: seq<seq<Byte>>, rest: seq<Byte>)
    requires |token| < TWO_63 && Justified(scan, token) && SeesFaults(scan, token)
    requires Returns(Loop(scan, token), 0, Failed(error)) && !WalkWraps(scan, token, 0)
    ensures FailsAs(token, fields, rest, error)
  {
    var k: nat :| Walk(Loop(scan, token), 0, k) == Stop(Failed(error));
    var ends, j := FailureIsPath(scan, token, 0, error, k);
    fields := PathGivesFields(scan, token, 0, ends, j);
    rest := token[j..];
    assert token[0..] == token;
    EmptyFault(j, error);
  }

  /** The parser's errors are exact too: it fails with an error, without meeting a wrapped sum, if and
      only if the token is a sequence of complete skipped fields and a rest with that fault. */
  lemma FailureExact(token: seq<Byte>, error: TokenError)
    requires |token| < TWO_63
    ensures Returns(Loop(ScanAt, token), 0, Failed(error)) && !WalkWraps(ScanAt, token, 0) <==>
            exists fields, rest :: FailsAs(token, fields, rest, error)
  {
    if Returns(Loop(ScanAt, token), 0, Failed(error)) && !WalkWraps(ScanAt, token, 0) {
      TokenJustified(token);
      TokenSeesFaults(token);
      var fields, rest := FailureHasFault(ScanAt, token, error);
    }
    forall fields, rest | FailsAs(token, fields, rest, error)
      ensures Returns(Loop(ScanAt, token), 0, Failed(error)) && !WalkWraps(ScanAt, token, 0)
    {
      FaultFails(token, fields, rest, error);
    }
  }

  // ---------- panics ----------

  /** A field that makes the loop panic: the workflow id, or one whose end wraps below zero. */
  predicate PanicsAt(scan: Scanner, token: seq<Byte>, j: nat) {
    j < |token| &&
    match scan(token, j)
    case Bad(_) => false
    case Take(_, end) => end >= TWO_63
    case Skip(end) => TWO_63 <= end < TWO_64
  }

  /** Lengths are 64-bit numbers. */
  ghost predicate Lengths64(scan: Scanner, token: seq<Byte>) {
    forall j: nat :: j < |token| && scan(token, j).Take? ==> scan(token, j).end < scan(token, j).start + TWO_64
  }

  lemma TokenLengths64(token: seq<Byte>)
    ensures Lengths64(ScanAt, token)
  {
    forall j: nat | j < |token| && ScanAt(token, j).Take?
      ensures ScanAt(token, j).end < ScanAt(token, j).start + TWO_64
    {
      var n, m, l := TakeShape(Uvarint, token, j);
      UvarintSound(token[j + n..]);
    }
  }

  lemma PanicRound(scan: Scanner, token: seq<Byte>, j: nat)
    requires Bounded(scan, token) && Lengths64(scan, token)
    ensures Next(scan, token, j) == Stop(Panics) <==> PanicsAt(scan, token, j)
  {
  }

  lemma WalkPanics(scan: Scanner, token: seq<Byte>)
    requires Bounded(scan, token) && Lengths64(scan, token)
    ensures Returns(Loop(scan, token), 0, Panics) <==>
            exists k: nat :: && Walk(Loop(scan, token), 0, k).Go?
                             && PanicsAt(scan, token, Walk(Loop(scan, token), 0, k).index)
  {
    var next := Loop(scan, token);
    forall k: nat | Walk(next, 0, k).Go? && PanicsAt(scan, token, Walk(next, 0, k).index)
      ensures Returns(next, 0, Panics)
    {
      PanicRound(scan, token, Walk(next, 0, k).index);
      OneMore(next, 0, k);
      assert Walk(next, 0, k + 1) == Stop(Panics);
    }
    if Returns(next, 0, Panics) {
      var k: nat :| Walk(next, 0, k) == Stop(Panics);
      var j := LastRound(next, 0, k);
      PanicRound(scan, token, Walk(next, 0, j).index);
    }
  }

  /** The parser panics exactly when it comes to a workflow id that ends at or beyond 2^63, or to
      another field that ends there but before 2^64. */
  lemma PanicsExact(token: seq<Byte>)
    ensures Returns(Loop(ScanAt, token), 0, Panics) <==>
            exists k: nat :: && Walk(Loop(ScanAt, token), 0, k).Go?
                             && PanicsAt(ScanAt, token, Walk(Loop(ScanAt, token), 0, k).index)
  {
    TokenJustified(token);
    TokenLengths64(token);
    WalkPanics(ScanAt, token);
  }
}
