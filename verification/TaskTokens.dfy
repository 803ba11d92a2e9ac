/**
  The hand-written protobuf walker that finds the workflow id (field 2, length-delimited) in a
  task token: the scanner of one field, the loop, and the round trip with an encoder.
 */
module TaskTokens {
  import opened Options
  import opened Rounds
  import opened Varints
  import opened TokenWalk

  /** Reads a varint at the front of the bytes: its value and its length, or a count of 0 or less. */
  type Reader = seq<Byte> -> (nat, int)

  function ScanBody(read: Reader, b: seq<Byte>, at: nat, tag: nat): Scan {
    match tag % 8
    case 0 =>
      var (_, m) := read(b);
      if m <= 0 then Bad(BadVarint) else Skip(at + m)
    case 1 => Skip(at + 8)
    case 2 =>
      var (length, m) := read(b);
      if m <= 0 then Bad(BadLength)
      else if tag / 8 == 2 then Take(at + m, at + m + length)
      else Skip(at + m + length)
    case 5 => Skip(at + 4)
    case other => Bad(Unsupported(other))
  }

  /** Reads the field at the front of b, the part of the token from index `at` on. */
  function ScanField(read: Reader, b: seq<Byte>, at: nat): Scan {
    var (tag, n) := read(b);
    if n <= 0 || n > |b| then Bad(BadTag(at)) else ScanBody(read, b[n..], at + n, tag)
  }

  /** The scanner of the loop: the field of the token that starts at index i. */
  function ScanAt(token: seq<Byte>, i: nat): Scan {
    if i > |token| then Bad(NotFound) else ScanField(Uvarint, token[i..], i)
  }

  // ---------- the code ----------

  method ReadBody(b: seq<Byte>, at: nat, tag: nat) returns (r: Scan)
    ensures r == ScanBody(Uvarint, b, at, tag)
  {
    var fieldNum, wireType := tag / 8, tag % 8;
    match wireType
    case 0 =>
      var _, m := ReadUvarint(b);
      r := if m <= 0 then Bad(BadVarint) else Skip(at + m);
    case 1 => r := Skip(at + 8);
    case 2 =>
      var length, m := ReadUvarint(b);
      if m <= 0 {
        r := Bad(BadLength);
      } else if fieldNum == 2 {
        r := Take(at + m, at + m + length);
      } else {
        r := Skip(at + m + length);
      }
    case 5 => r := Skip(at + 4);
    case _ => r := Bad(Unsupported(wireType));
  }

  method ReadField(b: seq<Byte>, at: nat) returns (r: Scan)
    ensures r == ScanField(Uvarint, b, at)
  {
    var tag, n := ReadUvarint(b);
    if n <= 0 {
      return Bad(BadTag(at));
    }
    UvarintSound(b);
    r := ReadBody(b[n..], at + n, tag);
  }

  /** The body of the loop. */
  method ReadRound(token: seq<Byte>, i: nat) returns (r: Round<Outcome>)
    ensures r == Loop(ScanAt, token)(i)
  {
    if i >= |token| {
      return Stop(Failed(NotFound));
    }
    var field := ReadField(token[i..], i);
    assert field == ScanAt(token, i);
    match field
    case Bad(error) => r := Stop(Failed(error));
    case Take(start, end) => r := Stop(Payload(token, start, Signed(end)));
    case Skip(end) => r := if Signed(end) < 0 then Stop(Panics) else Go(Signed(end));
  }

  /** The loop, as the handler runs it; None if it goes on forever.  The count of rounds is there
      only to notice that: a loop that ends does so within |token| + 1 rounds. */
  method ExtractWorkflowID(token: seq<Byte>) returns (r: Option<Outcome>)
    ensures r.Some? ==> Returns(Loop(ScanAt, token), 0, r.value)
    ensures r.None? <==> !Stops(Loop(ScanAt, token), 0)
  {
    var round, rounds := Go(0), 0;
    while round.Go? && rounds <= |token|
      invariant 0 <= rounds <= |token| + 1
      invariant Walk(Loop(ScanAt, token), 0, rounds) == round
    {
      OneMore(Loop(ScanAt, token), 0, rounds);
      round := ReadRound(token, round.index);
      rounds := rounds + 1;
    }
    if round.Go? {
      StillGoing(ScanAt, token);
      return None;
    }
    ReturnsAt(Loop(ScanAt, token), 0, rounds, round.outcome);
    return Some(round.outcome);
  }

  // ---------- what the walk recognises ----------

  const ID_TAG: nat := 18  // field 2, wire type 2

  /** A varint declaring the number of bytes that follow, then those bytes. */
  ghost predicate DelimitedAs(b: seq<Byte>, length: seq<Byte>, s: seq<Byte>) {
    b == length + s && IsVarint(length) && Spell(length) == |s|
  }

  ghost predicate SkipsBody(tag: nat, b: seq<Byte>) {
    match tag % 8
    case 0 => IsVarint(b)
    case 1 => |b| == 8
    case 2 => tag != ID_TAG && exists length, s :: DelimitedAs(b, length, s)
    case 5 => |b| == 4
    case _ => false
  }

  ghost predicate SkipsAs(f: seq<Byte>, head: seq<Byte>, b: seq<Byte>) {
    f == head + b && IsVarint(head) && SkipsBody(Spell(head), b)
  }

  /** A complete field of wire type 0, 1, 2 or 5 other than the workflow id. */
  ghost predicate Skips(f: seq<Byte>) {
    exists head, b :: SkipsAs(f, head, b)
  }

  ghost predicate CarriesAs(f: seq<Byte>, head: seq<Byte>, b: seq<Byte>, length: seq<Byte>, s: seq<Byte>) {
    f == head + b && IsVarint(head) && Spell(head) == ID_TAG && DelimitedAs(b, length, s)
  }

  /** A complete length-delimited field 2 with payload s. */
  ghost predicate Carries(f: seq<Byte>, s: seq<Byte>) {
    exists head, b, length :: CarriesAs(f, head, b, length, s)
  }

  // ---------- reading well-formed fields ----------

  /** The reader reads every well-formed varint, whatever follows it ... */
  ghost predicate Reads(read: Reader) {
    forall head, rest :: IsVarint(head) ==> read(head + rest) == (Spell(head), |head|)
  }

  /** ... and reads nothing else. */
  ghost predicate ReadsOnly(read: Reader) {
    forall b :: read(b).1 > 0 ==>
      read(b).1 <= |b| && IsVarint(b[..read(b).1]) && read(b).0 == Spell(b[..read(b).1])
  }

  lemma UvarintReads()
    ensures Reads(Uvarint) && ReadsOnly(Uvarint)
  {
    forall head, rest | IsVarint(head) ensures Uvarint(head + rest) == (Spell(head), |head|) {
      UvarintPrefix(head, rest);
    }
    forall b | Uvarint(b).1 > 0
      ensures Uvarint(b).1 <= |b| && IsVarint(b[..Uvarint(b).1]) && Uvarint(b).0 == Spell(b[..Uvarint(b).1])
    {
      UvarintSound(b);
    }
  }

  lemma TagForward(read: Reader, head: seq<Byte>, tail: seq<Byte>, at: nat)
    requires Reads(read) && IsVarint(head)
    ensures ScanField(read, head + tail, at) == ScanBody(read, tail, at + |head|, Spell(head))
  {
    assert read(head + tail) == (Spell(head), |head|);
    assert (head + tail)[|head|..] == tail;
  }

  lemma LengthForward(read: Reader, b: seq<Byte>, length: seq<Byte>, s: seq<Byte>, tail: seq<Byte>)
    requires Reads(read) && DelimitedAs(b, length, s)
    ensures read(b + tail) == (|s|, |length|)
  {
    assert b + tail == length + (s + tail);
  }

  lemma BodyForward(read: Reader, tag: nat, b: seq<Byte>, tail: seq<Byte>, at: nat)
    requires Reads(read) && SkipsBody(tag, b)
    ensures ScanBody(read, b + tail, at, tag) == Skip(at + |b|)
  {
    if tag % 8 == 0 {
      assert read(b + tail) == (Spell(b), |b|);
    } else if tag % 8 == 2 {
      var length, s :| DelimitedAs(b, length, s);
      LengthForward(read, b, length, s, tail);
    }
  }

  lemma SkipsForward(read: Reader, f: seq<Byte>, tail: seq<Byte>, at: nat)
    requires Reads(read) && Skips(f)
    ensures f != [] && ScanField(read, f + tail, at) == Skip(at + |f|)
  {
    var head, b :| SkipsAs(f, head, b);
    assert f + tail == head + (b + tail);
    TagForward(read, head, b + tail, at);
    BodyForward(read, Spell(head), b, tail, at + |head|);
  }

  lemma CarriesSuffix(f: seq<Byte>, s: seq<Byte>)
    requires Carries(f, s)
    ensures f != [] && |s| <= |f| && f[|f| - |s|..] == s
  {
    var head, b, length :| CarriesAs(f, head, b, length, s);
  }

  lemma CarriesForward(read: Reader, f: seq<Byte>, s: seq<Byte>, tail: seq<Byte>, at: nat)
    requires Reads(read) && Carries(f, s)
    ensures |s| <= |f| && ScanField(read, f + tail, at) == Take(at + |f| - |s|, at + |f|)
  {
    var head, b, length :| CarriesAs(f, head, b, length, s);
    assert f + tail == head + (b + tail);
    TagForward(read, head, b + tail, at);
    LengthForward(read, b, length, s, tail);
  }

  // ---------- reading back ----------

  lemma VarintIn(read: Reader, token: seq<Byte>, j: nat)
    requires ReadsOnly(read) && j <= |token| && read(token[j..]).1 > 0
    ensures var (v, n) := read(token[j..]);
            j + n <= |token| && IsVarint(token[j..j + n]) && Spell(token[j..j + n]) == v
  {
    var n := read(token[j..]).1;
    assert token[j..][..n] == token[j..j + n];
  }

  /** What the reader reads anywhere in the token is a varint of the token. */
  ghost predicate ReadsIn(read: Reader, token: seq<Byte>) {
    forall j: nat :: j <= |token| && read(token[j..]).1 > 0 ==>
      var (v, n) := read(token[j..]);
      j + n <= |token| && IsVarint(token[j..j + n]) && Spell(token[j..j + n]) == v
  }

  lemma OnlyReadsIn(read: Reader, token: seq<Byte>)
    requires ReadsOnly(read)
    ensures ReadsIn(read, token)
  {
    forall j: nat | j <= |token| && read(token[j..]).1 > 0
      ensures var (v, n) := read(token[j..]);
              j + n <= |token| && IsVarint(token[j..j + n]) && Spell(token[j..j + n]) == v
    {
      VarintIn(read, token, j);
    }
  }

  lemma DropTwice(token: seq<Byte>, i: nat, n: nat)
    requires i + n <= |token|
    ensures token[i..][n..] == token[i + n..]
  {
  }

  lemma BodyShape(read: Reader, b: seq<Byte>, at: nat, tag: nat)
    requires ScanBody(read, b, at, tag).Take?
    ensures tag == ID_TAG && read(b).1 > 0
    ensures ScanBody(read, b, at, tag) == Take(at + read(b).1, at + read(b).1 + read(b).0)
  {
  }

  /** A scan that takes a payload has read the tag of field 2 and a length. */
  lemma TakeShape(read: Reader, token: seq<Byte>, i: nat) returns (n: nat, m: nat, l: nat)
    requires i < |token| && ScanField(read, token[i..], i).Take?
    ensures 0 < n && 0 < m && i + n <= |token|
    ensures read(token[i..]) == (ID_TAG, n) && read(token[i + n..]) == (l, m)
    ensures ScanField(read, token[i..], i) == Take(i + n + m, i + n + m + l)
  {
    n := read(token[i..]).1;
    BodyShape(read, token[i..][n..], i + n, read(token[i..]).0);
    DropTwice(token, i, n);
    l, m := read(token[i + n..]).0, read(token[i + n..]).1;
  }

  lemma Cut(token: seq<Byte>, i: nat, j: nat, k: nat)
    requires i <= j <= k <= |token|
    ensures token[i..k] == token[i..j] + token[j..k]
  {
  }

  lemma SkipsFrom(head: seq<Byte>, b: seq<Byte>)
    requires IsVarint(head) && SkipsBody(Spell(head), b)
    ensures Skips(head + b)
  {
    assert SkipsAs(head + b, head, b);
  }

  lemma BodyIn(read: Reader, token: seq<Byte>, j: nat, tag: nat, end: nat)
    requires ReadsIn(read, token) && j <= |token|
    requires ScanBody(read, token[j..], j, tag) == Skip(end) && end <= |token|
    ensures j <= end && SkipsBody(tag, token[j..end])
  {
    if tag % 8 == 2 {
      var m := read(token[j..]).1;
      Cut(token, j, j + m, end);
      assert DelimitedAs(token[j..end], token[j..j + m], token[j + m..end]);
    }
  }

  lemma SkipsIn(read: Reader, token: seq<Byte>, i: nat, end: nat)
    requires ReadsIn(read, token) && i < |token|
    requires ScanField(read, token[i..], i) == Skip(end) && end <= |token|
    ensures i < end && Skips(token[i..end])
  {
    var (tag, n) := read(token[i..]);
    DropTwice(token, i, n);
    BodyIn(read, token, i + n, tag, end);
    SkipsFrom(token[i..i + n], token[i + n..end]);
    Cut(token, i, i + n, end);
  }

  lemma CarriesIn(token: seq<Byte>, i: nat, n: nat, m: nat, l: nat)
    requires i + n + m + l <= |token|
    requires IsVarint(token[i..i + n]) && Spell(token[i..i + n]) == ID_TAG
    requires IsVarint(token[i + n..i + n + m]) && Spell(token[i + n..i + n + m]) == l
    ensures Carries(token[i..i + n + m + l], token[i + n + m..i + n + m + l])
  {
    var e := i + n + m + l;
    Cut(token, i, i + n, e);
    Cut(token, i + n, i + n + m, e);
    assert CarriesAs(token[i..e], token[i..i + n], token[i + n..e], token[i + n..i + n + m], token[i + n + m..e]);
    assert Carries(token[i..e], token[i + n + m..e]);
  }

  // ---------- soundness and completeness ----------

  function Concat(fs: seq<seq<Byte>>): seq<Byte> {
    if fs == [] then [] else fs[0] + Concat(fs[1..])
  }

  /** Complete skipped fields, then a field 2 with payload s, then anything. */
  ghost predicate WellFormed(token: seq<Byte>, fields: seq<seq<Byte>>, last: seq<Byte>, rest: seq<Byte>, s: seq<Byte>) {
    && token == Concat(fields) + (last + rest)
    && (forall i :: 0 <= i < |fields| ==> Skips(fields[i]))
    && Carries(last, s)
  }

  /** The scanner steps over f wherever it sits in a token. */
  ghost predicate StepsOver(scan: Scanner, f: seq<Byte>) {
    f != [] && forall token, i: nat :: i <= |token| && f <= token[i..] ==> scan(token, i) == Skip(i + |f|)
  }

  /** The scanner takes the payload s of f wherever it sits in a token. */
  ghost predicate Takes(scan: Scanner, f: seq<Byte>, s: seq<Byte>) {
    && 0 < |f| && |s| <= |f| && f[|f| - |s|..] == s
    && forall token, i: nat :: i <= |token| && f <= token[i..] ==> scan(token, i) == Take(i + |f| - |s|, i + |f|)
  }

  lemma Prefix(f: seq<Byte>, b: seq<Byte>)
    requires f <= b
    ensures b == f + b[|f|..]
  {
  }

  lemma SkipsAreSteppedOver(f: seq<Byte>)
    requires Skips(f)
    ensures StepsOver(ScanAt, f)
  {
    UvarintReads();
    SkipsForward(Uvarint, f, [], 0);
    forall token, i: nat | i <= |token| && f <= token[i..] ensures ScanAt(token, i) == Skip(i + |f|) {
      Prefix(f, token[i..]);
      SkipsForward(Uvarint, f, token[i..][|f|..], i);
    }
  }

  lemma CarriersAreTaken(f: seq<Byte>, s: seq<Byte>)
    requires Carries(f, s)
    ensures Takes(ScanAt, f, s)
  {
    UvarintReads();
    CarriesSuffix(f, s);
    forall token, i: nat | i <= |token| && f <= token[i..] ensures ScanAt(token, i) == Take(i + |f| - |s|, i + |f|) {
      Prefix(f, token[i..]);
      CarriesForward(Uvarint, f, s, token[i..][|f|..], i);
    }
  }

  lemma TailAfter(token: seq<Byte>, i: nat, f: seq<Byte>, tail: seq<Byte>)
    requires i <= |token| && token[i..] == f + tail
    ensures f <= token[i..] && i + |f| <= |token| && token[i + |f|..] == tail
  {
    assert token[i..][|f|..] == tail;
  }

  /** Fields that are stepped over lead to whatever follows them. */
  lemma {:induction false} FieldsGivePath(scan: Scanner, token: seq<Byte>, i: nat, fields: seq<seq<Byte>>,
                                          tail: seq<Byte>)
    returns (ends: seq<nat>, j: nat)
    requires i <= |token| && token[i..] == Concat(fields) + tail
    requires forall k :: 0 <= k < |fields| ==> StepsOver(scan, fields[k])
    ensures Path(scan, token, i, ends, j) && j <= |token| && token[j..] == tail
    decreases |fields|
  {
    if fields == [] {
      ends, j := [], i;
    } else {
      var f := fields[0];
      assert StepsOver(scan, f);
      assert token[i..] == f + (Concat(fields[1..]) + tail);
      TailAfter(token, i, f, Concat(fields[1..]) + tail);
      ends, j := FieldsGivePath(scan, token, i + |f|, fields[1..], tail);
      var all := [i + |f|] + ends;
      assert all[0] == i + |f| && all[1..] == ends;
      ends := all;
    }
  }

  lemma TakenAt(scan: Scanner, token: seq<Byte>, j: nat, last: seq<Byte>, rest: seq<Byte>, s: seq<Byte>)
    requires j <= |token| && token[j..] == last + rest && Takes(scan, last, s)
    ensures j < j + |last| <= |token| && scan(token, j) == Take(j + |last| - |s|, j + |last|)
    ensures |s| <= |last| && token[j + |last| - |s|..j + |last|] == s
  {
    TailAfter(token, j, last, rest);
    assert token[j..][..|last|] == last;
    assert token[j + |last| - |s|..j + |last|] == last[|last| - |s|..];
  }

  lemma WalkedTo(scan: Scanner, token: seq<Byte>, ends: seq<nat>, j: nat, last: seq<Byte>, rest: seq<Byte>,
                 s: seq<Byte>)
    requires |token| < TWO_63 && Path(scan, token, 0, ends, j)
    requires j <= |token| && token[j..] == last + rest && Takes(scan, last, s)
    ensures Returns(Loop(scan, token), 0, Found(s)) && !WalkWraps(scan, token, 0)
  {
    TakenAt(scan, token, j, last, rest, s);
    PathIsWalked(scan, token, ends, j);
  }

  lemma FieldsAreWalked(scan: Scanner, token: seq<Byte>, fields: seq<seq<Byte>>, last: seq<Byte>, rest: seq<Byte>,
                        s: seq<Byte>)
    requires |token| < TWO_63 && token == Concat(fields) + (last + rest)
    requires forall k :: 0 <= k < |fields| ==> StepsOver(scan, fields[k])
    requires Takes(scan, last, s)
    ensures Returns(Loop(scan, token), 0, Found(s)) && !WalkWraps(scan, token, 0)
  {
    assert token[0..] == token;
    var ends, j := FieldsGivePath(scan, token, 0, fields, last + rest);
    WalkedTo(scan, token, ends, j, last, rest, s);
  }

  /** A well-formed token is parsed to its workflow id. */
  lemma Complete(token: seq<Byte>, fields: seq<seq<Byte>>, last: seq<Byte>, rest: seq<Byte>, s: seq<Byte>)
    requires |token| < TWO_63 && WellFormed(token, fields, last, rest, s)
    ensures Returns(Loop(ScanAt, token), 0, Found(s)) && !WalkWraps(ScanAt, token, 0)
  {
    forall k | 0 <= k < |fields| ensures StepsOver(ScanAt, fields[k]) { SkipsAreSteppedOver(fields[k]); }
    CarriersAreTaken(last, s);
    FieldsAreWalked(ScanAt, token, fields, last, rest, s);
  }

  /** What was scanned at index i, if complete, is a field of the wire format. */
  ghost predicate JustScan(r: Scan, token: seq<Byte>, i: nat) {
    match r
    case Bad(_) => true
    case Skip(end) => i < end && (i < end <= |token| ==> Skips(token[i..end]))
    case Take(start, end) =>
      && i < start <= |token| && start <= end
      && (i < start <= end <= |token| ==> Carries(token[i..end], token[start..end]))
  }

  ghost predicate Justified(scan: Scanner, token: seq<Byte>) {
    forall i: nat :: i < |token| ==> JustScan(scan(token, i), token, i)
  }

  lemma SkipJustified(read: Reader, token: seq<Byte>, i: nat, end: nat)
    requires i < |token| && ReadsIn(read, token) && ScanField(read, token[i..], i) == Skip(end)
    ensures JustScan(Skip(end), token, i)
  {
    if end <= |token| { SkipsIn(read, token, i, end); }
  }

  lemma PayloadJustified(token: seq<Byte>, i: nat, n: nat, m: nat, l: nat)
    requires 0 < n && i + n + m <= |token|
    requires IsVarint(token[i..i + n]) && Spell(token[i..i + n]) == ID_TAG
    requires IsVarint(token[i + n..i + n + m]) && Spell(token[i + n..i + n + m]) == l
    ensures JustScan(Take(i + n + m, i + n + m + l), token, i)
  {
    if i + n + m + l <= |token| { CarriesIn(token, i, n, m, l); }
  }

  lemma TakeJustified(read: Reader, token: seq<Byte>, i: nat, n: nat, m: nat, l: nat)
    requires ReadsIn(read, token) && 0 < n && 0 < m && i + n <= |token|
    requires read(token[i..]) == (ID_TAG, n) && read(token[i + n..]) == (l, m)
    ensures JustScan(Take(i + n + m, i + n + m + l), token, i)
  {
    PayloadJustified(token, i, n, m, l);
  }

  lemma FieldJustified(read: Reader, token: seq<Byte>, i: nat)
    requires i < |token| && ReadsIn(read, token)
    ensures JustScan(ScanField(read, token[i..], i), token, i)
  {
    var r := ScanField(read, token[i..], i);
    if r.Skip? {
      SkipJustified(read, token, i, r.end);
    } else if r.Take? {
      var n, m, l := TakeShape(read, token, i);
      TakeJustified(read, token, i, n, m, l);
    }
  }

  lemma {:induction false} PathGivesFields(scan: Scanner, token: seq<Byte>, i: nat, ends: seq<nat>, j: nat)
    returns (fields: seq<seq<Byte>>)
    requires Justified(scan, token) && i <= |token| && Path(scan, token, i, ends, j) && j <= |token|
    ensures token[i..] == Concat(fields) + token[j..]
    ensures forall k :: 0 <= k < |fields| ==> Skips(fields[k])
    decreases |ends|
  {
    if ends == [] {
      fields := [];
    } else {
      var f := token[i..ends[0]];
      var more := PathGivesFields(scan, token, ends[0], ends[1..], j);
      fields := [f] + more;
      assert fields[1..] == more;
      assert token[i..] == f + token[ends[0]..];
    }
  }

  lemma Sound(scan: Scanner, token: seq<Byte>, s: seq<Byte>)
    returns (fields: seq<seq<Byte>>, last: seq<Byte>, rest: seq<Byte>)
    requires Justified(scan, token) && |token| < TWO_63
    requires Returns(Loop(scan, token), 0, Found(s)) && !WalkWraps(scan, token, 0)
    ensures WellFormed(token, fields, last, rest, s)
  {
    var k: nat :| Walk(Loop(scan, token), 0, k) == Stop(Found(s));
    var ends, j := WalkIsPath(scan, token, 0, s, k);
    var end := scan(token, j).end;
    fields := PathGivesFields(scan, token, 0, ends, j);
    last, rest := token[j..end], token[end..];
    Cut(token, j, end, |token|);
    assert token[0..] == token && token[j..] == token[j..|token|] && rest == token[end..|token|];
  }

  ghost predicate HasId(token: seq<Byte>, s: seq<Byte>) {
    exists fields, last, rest :: WellFormed(token, fields, last, rest, s)
  }

  /** The parser is exact: it returns s without meeting a wrapped sum if and only if the token is
      a sequence of complete skipped fields, a field 2 with payload s, and an arbitrary rest.  So
      an id it returns, whichever way it walked, is the token's own exactly if no sum wrapped. */
  lemma ParseExact(token: seq<Byte>, s: seq<Byte>)
    requires |token| < TWO_63
    ensures Returns(Loop(ScanAt, token), 0, Found(s)) && !WalkWraps(ScanAt, token, 0) <==> HasId(token, s)
    ensures Returns(Loop(ScanAt, token), 0, Found(s)) ==> (HasId(token, s) <==> !WalkWraps(ScanAt, token, 0))
  {
    if Returns(Loop(ScanAt, token), 0, Found(s)) && !WalkWraps(ScanAt, token, 0) {
      TokenJustified(token);
      var fields, last, rest := Sound(ScanAt, token, s);
    }
    if HasId(token, s) {
      var fields, last, rest :| WellFormed(token, fields, last, rest, s);
      Complete(token, fields, last, rest, s);
    }
  }

  lemma TokenJustified(token: seq<Byte>)
    ensures Justified(ScanAt, token) && Bounded(ScanAt, token)
  {
    UvarintReads();
    OnlyReadsIn(Uvarint, token);
    forall i: nat | i < |token| ensures JustScan(ScanAt(token, i), token, i) {
      FieldJustified(Uvarint, token, i);
    }
  }

  /** On every token whose walk meets no wrapped sum the index grows in each round, no slice is
      out of range, and the loop ends within |token| + 1 rounds. */
  lemma TokenParseIsBounded(token: seq<Byte>, k: nat)
    requires !WalkWraps(ScanAt, token, 0)
    ensures var next := Loop(ScanAt, token);
            && Walk(next, 0, k) != Stop(Panics)
            && (Walk(next, 0, k + 1).Go? ==>
                  Walk(next, 0, k).Go? && Walk(next, 0, k).index < Walk(next, 0, k + 1).index)
            && (|token| < k ==> Walk(next, 0, k).Stop?)
  {
    TokenJustified(token);
    ParseIsBounded(ScanAt, token, k);
  }

  // ---------- round trip ----------

  datatype Field =
    | VarintField(num: nat, value: nat)
    | Fixed64(num: nat, bytes: seq<Byte>)
    | Bytes(num: nat, bytes: seq<Byte>)
    | Fixed32(num: nat, bytes: seq<Byte>)

  predicate ValidField(f: Field) {
    && 8 * f.num + 7 < TWO_64
    && match f
       case VarintField(_, value) => value < TWO_64
       case Fixed64(_, bytes) => |bytes| == 8
       case Bytes(_, bytes) => |bytes| < TWO_64
       case Fixed32(_, bytes) => |bytes| == 4
  }

  function WireType(f: Field): nat {
    match f
    case VarintField(_, _) => 0
    case Fixed64(_, _) => 1
    case Bytes(_, _) => 2
    case Fixed32(_, _) => 5
  }

  function EncodeBody(f: Field): seq<Byte> {
    match f
    case VarintField(_, value) => Encode(value)
    case Fixed64(_, bytes) => bytes
    case Bytes(_, bytes) => Encode(|bytes|) + bytes
    case Fixed32(_, bytes) => bytes
  }

  function EncodeField(f: Field): seq<Byte> {
    Encode(8 * f.num + WireType(f)) + EncodeBody(f)
  }

  function EncodeMessage(fs: seq<Field>): seq<Byte> {
    if fs == [] then [] else EncodeField(fs[0]) + EncodeMessage(fs[1..])
  }

  predicate IsId(f: Field) {
    f.Bytes? && f.num == 2
  }

  /** The outcome a message deserves: its first workflow id, or "not found". */
  function Expected(fs: seq<Field>): Outcome {
    if fs == [] then Failed(NotFound)
    else if IsId(fs[0]) then Found(fs[0].bytes)
    else Expected(fs[1..])
  }

  lemma EncodedBodySkips(f: Field)
    requires ValidField(f) && !IsId(f)
    ensures SkipsBody(8 * f.num + WireType(f), EncodeBody(f))
  {
    match f
    case VarintField(_, value) => EncodeIsVarint(value);
    case Bytes(_, bytes) =>
      EncodeIsVarint(|bytes|);
      assert DelimitedAs(EncodeBody(f), Encode(|bytes|), bytes);
    case _ =>
  }

  lemma EncodedFieldSkips(f: Field)
    requires ValidField(f) && !IsId(f)
    ensures Skips(EncodeField(f))
  {
    EncodedBodySkips(f);
    EncodeIsVarint(8 * f.num + WireType(f));
    SkipsFrom(Encode(8 * f.num + WireType(f)), EncodeBody(f));
  }

  lemma EncodedIdCarries(f: Field)
    requires ValidField(f) && IsId(f)
    ensures Carries(EncodeField(f), f.bytes)
  {
    EncodeIsVarint(ID_TAG);
    EncodeIsVarint(|f.bytes|);
    assert DelimitedAs(EncodeBody(f), Encode(|f.bytes|), f.bytes);
    assert CarriesAs(EncodeField(f), Encode(ID_TAG), EncodeBody(f), Encode(|f.bytes|), f.bytes);
  }

  lemma ConcatCons(f: seq<Byte>, fields: seq<seq<Byte>>, tail: seq<Byte>)
    ensures Concat([f] + fields) + tail == f + (Concat(fields) + tail)
  {
    assert ([f] + fields)[1..] == fields;
  }

  /** An encoded message is its fields before the first workflow id, then that field and the rest. */
  lemma {:induction false} MessageShape(fs: seq<Field>)
    returns (fields: seq<seq<Byte>>, last: seq<Byte>, rest: seq<Byte>)
    requires forall f :: f in fs ==> ValidField(f)
    ensures EncodeMessage(fs) == Concat(fields) + (last + rest)
    ensures forall k :: 0 <= k < |fields| ==> Skips(fields[k])
    ensures Expected(fs).Found? ==> Carries(last, Expected(fs).id)
    ensures !Expected(fs).Found? ==> Expected(fs) == Failed(NotFound) && last + rest == []
    decreases |fs|
  {
    if fs == [] {
      fields, last, rest := [], [], [];
    } else if IsId(fs[0]) {
      EncodedIdCarries(fs[0]);
      fields, last, rest := [], EncodeField(fs[0]), EncodeMessage(fs[1..]);
    } else {
      EncodedFieldSkips(fs[0]);
      var more;
      more, last, rest := MessageShape(fs[1..]);
      fields := [EncodeField(fs[0])] + more;
      ConcatCons(EncodeField(fs[0]), more, last + rest);
    }
  }

  /** Parsing an encoded message returns its first workflow id, or "not found". */
  lemma RoundTrip(fs: seq<Field>)
    requires forall f :: f in fs ==> ValidField(f)
    requires |EncodeMessage(fs)| < TWO_63
    ensures Returns(Loop(ScanAt, EncodeMessage(fs)), 0, Expected(fs))
  {
    var token := EncodeMessage(fs);
    var fields, last, rest := MessageShape(fs);
    if Expected(fs).Found? {
      Complete(token, fields, last, rest, Expected(fs).id);
    } else {
      SkippedToEnd(token, fields);
    }
  }

  lemma SkippedToEnd(token: seq<Byte>, fields: seq<seq<Byte>>)
    requires |token| < TWO_63 && token == Concat(fields) + []
    requires forall k :: 0 <= k < |fields| ==> Skips(fields[k])
    ensures Returns(Loop(ScanAt, token), 0, Failed(NotFound))
  {
    forall k | 0 <= k < |fields| ensures StepsOver(ScanAt, fields[k]) { SkipsAreSteppedOver(fields[k]); }
    assert token[0..] == token;
    var ends, j := FieldsGivePath(ScanAt, token, 0, fields, []);
    assert j == |token|;
    PathToEnd(ScanAt, token, ends);
  }

  // ---------- what a wrapped length can do ----------

  /** The varint with k continuation bytes, all bits set, and a final 1. */
  function Ones(k: nat): (b: seq<Byte>)
    ensures |b| == k + 1 && b[k] == 1
    ensures forall i :: 0 <= i < k ==> b[i] == 255
  {
    if k == 0 then [1] else [255] + Ones(k - 1)
  }

  lemma {:induction false} OnesSpell(k: nat)
    ensures Spell(Ones(k)) == 2 * Power(k) - 1
  {
    if k > 0 {
      OnesSpell(k - 1);
      assert Ones(k)[1..] == Ones(k - 1);
    }
  }

  /** Three rounds: a wrapped skip to j, a skip to k, a payload. */
  lemma ThreeRounds(scan: Scanner, token: seq<Byte>, end: nat, j: nat, k: nat, start: nat, stop: nat)
    requires j < |token| && k < |token| < TWO_63 && start <= stop <= |token|
    requires scan(token, 0) == Skip(end) && end >= TWO_63 && Signed(end) == j
    requires scan(token, j) == Skip(k) && scan(token, k) == Take(start, stop)
    ensures Returns(Loop(scan, token), 0, Found(token[start..stop])) && WalkWraps(scan, token, 0)
  {
    var next := Loop(scan, token);
    assert next(0) == Go(j) && next(j) == Go(k) && next(k) == Stop(Found(token[start..stop]));
    assert Walk(next, k, 1) == next(k);
    assert Walk(next, j, 2) == Walk(next, k, 1);
    assert Walk(next, 0, 3) == Walk(next, j, 2);
    assert Walk(next, 0, 0) == Go(0) && WrapsAt(scan, token, 0);
  }

  /** Field 1 declares 2^64 - 1 bytes; the sum wraps into the declaration itself. */
  function Misleading(pad: seq<Byte>, x: Byte): seq<Byte> {
    [10] + (Ones(9) + (pad + [18, 1, x]))
  }

  lemma MisleadingFirst(read: Reader, wide: seq<Byte>, rest: seq<Byte>)
    requires Reads(read) && IsVarint(wide) && |wide| == 10 && Spell(wide) == TWO_64 - 1
    ensures ScanField(read, [10] + (wide + rest), 0) == Skip(TWO_64 + 10)
  {
    assert IsVarint([10]);
    TagForward(read, [10], wide + rest, 0);
    assert read(wide + rest) == (TWO_64 - 1, 10);
  }

  lemma MisleadingNext(read: Reader, pad: seq<Byte>, x: Byte)
    requires Reads(read)
    ensures ScanField(read, [1] + (pad + [18, 1, x]), 10) == Skip(19)
    ensures ScanField(read, [18, 1, x], 19) == Take(21, 22)
  {
    assert IsVarint([1]) && IsVarint([18]);
    TagForward(read, [1], pad + [18, 1, x], 10);
    assert [18, 1, x] == [18] + ([1] + [x]);
    TagForward(read, [18], [1] + [x], 19);
    assert read([1] + [x]) == (1, 1);
  }

  lemma MisleadingSlices(pad: seq<Byte>, x: Byte)
    requires |pad| == 8
    ensures var token := Misleading(pad, x);
            && |token| == 22 && token[0..] == token && token[10..] == [1] + (pad + [18, 1, x])
            && token[19..] == [18, 1, x] && token[21..22] == [x]
  {
  }

  lemma OnesWide()
    ensures IsVarint(Ones(9)) && |Ones(9)| == 10 && Spell(Ones(9)) == TWO_64 - 1
  {
    PowerNine();
    OnesSpell(9);
  }

  lemma MisleadingScans(pad: seq<Byte>, x: Byte)
    requires |pad| == 8
    ensures var token := Misleading(pad, x);
            && ScanAt(token, 0) == Skip(TWO_64 + 10) && ScanAt(token, 10) == Skip(19)
            && ScanAt(token, 19) == Take(21, 22)
  {
    UvarintReads();
    MisleadingSlices(pad, x);
    OnesWide();
    MisleadingFirst(Uvarint, Ones(9), pad + [18, 1, x]);
    MisleadingNext(Uvarint, pad, x);
  }

  /** Once a length wraps, the parser can return an id from a token that is no sequence of fields. */
  lemma WrappedLengthMisleads(pad: seq<Byte>, x: Byte)
    requires |pad| == 8
    ensures Returns(Loop(ScanAt, Misleading(pad, x)), 0, Found([x])) && !HasId(Misleading(pad, x), [x])
  {
    var token := Misleading(pad, x);
    MisleadingScans(pad, x);
    MisleadingSlices(pad, x);
    ThreeRounds(ScanAt, token, TWO_64 + 10, 10, 19, 21, 22);
    ParseExact(token, [x]);
  }

  /** Field 1 declares 2^64 - 11 bytes, so that the field ends where it starts. */
  function Endless(rest: seq<Byte>): seq<Byte> {
    [10] + (([245] + Ones(8)) + rest)
  }

  lemma EndlessLength()
    ensures var wide := [245] + Ones(8);
            IsVarint(wide) && |wide| == 10 && Spell(wide) == TWO_64 - 11
  {
    var wide := [245] + Ones(8);
    PowerNine();
    OnesSpell(8);
    assert wide[1..] == Ones(8);
    assert forall i :: 0 < i < 10 ==> wide[i] == Ones(8)[i - 1];
  }

  lemma EndlessScan(read: Reader, wide: seq<Byte>, rest: seq<Byte>)
    requires Reads(read) && IsVarint(wide) && |wide| == 10 && Spell(wide) == TWO_64 - 11
    ensures ScanField(read, [10] + (wide + rest), 0) == Skip(TWO_64)
  {
    assert IsVarint([10]);
    TagForward(read, [10], wide + rest, 0);
    assert read(wide + rest) == (TWO_64 - 11, 10);
  }

  /** On these eleven bytes, whatever follows them, the loop never ends. */
  lemma EndlessNeverStops(rest: seq<Byte>)
    ensures !Stops(Loop(ScanAt, Endless(rest)), 0)
  {
    UvarintReads();
    EndlessLength();
    EndlessScan(Uvarint, [245] + Ones(8), rest);
    assert Endless(rest)[0..] == Endless(rest);
    EndsAtStart(ScanAt, Endless(rest));
  }
}
