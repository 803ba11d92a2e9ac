/**
  The loop of the task-token parser, for any way of scanning one field: 64-bit index arithmetic,
  the outcomes of the loop, and its exact relation to a sequence of fields.
 */
module TokenWalk {
  import opened Rounds
  import opened Varints

  datatype TokenError = BadTag(at: nat) | BadVarint | BadLength | PastEnd | Unsupported(wireType: nat) | NotFound

  /** How the loop is left; `Panics` is a slice out of range. */
  datatype Outcome = Found(id: seq<Byte>) | Failed(error: TokenError) | Panics

  /** What one round reads at an index: an error, a field to step over that ends at `end`, or the
      workflow id between `start` and `end`.  Ends are exact sums, not yet wrapped. */
  datatype Scan = Bad(error: TokenError) | Skip(end: nat) | Take(start: nat, end: nat)

  /** Scans the field of a token that starts at the given index. */
  type Scanner = (seq<Byte>, nat) -> Scan

  /** The int64 sum of an index and a length converted from uint64, given their exact sum. */
  function Signed(sum: nat): int {
    if sum < TWO_63 then sum else sum - TWO_64
  }

  /** An index below 2^63 plus a 64-bit length: the int64 with the same low 64 bits. */
  lemma SignedIsInt64(index: nat, length: nat)
    requires index < TWO_63 && length < TWO_64
    ensures -TWO_63 <= Signed(index + length) < TWO_63
    ensures Signed(index + length) % TWO_64 == (index + length) % TWO_64
  {
  }

  function Payload(token: seq<Byte>, start: nat, end: int): Outcome {
    if end > |token| then Failed(PastEnd)
    else if end < start then Panics
    else Found(token[start..end])
  }

  /** One round at index i.  An index that a wrapped sum made negative panics in the next slice. */
  function Next(scan: Scanner, token: seq<Byte>, i: nat): Round<Outcome> {
    if i >= |token| then Stop(Failed(NotFound)) else
    match scan(token, i)
    case Bad(error) => Stop(Failed(error))
    case Take(start, end) => Stop(Payload(token, start, Signed(end)))
    case Skip(end) => if Signed(end) < 0 then Stop(Panics) else Go(Signed(end))
  }

  function Loop(scan: Scanner, token: seq<Byte>): nat -> Round<Outcome> {
    (i: nat) => Next(scan, token, i)
  }

  /** For every scanner and token the loop ends exactly when it comes to no index twice, and then
      within |token| + 1 rounds. */
  lemma LoopStopsIff(scan: Scanner, token: seq<Byte>)
    ensures Stops(Loop(scan, token), 0) <==> !Repeats(Loop(scan, token), 0)
    ensures Stops(Loop(scan, token), 0) <==> Walk(Loop(scan, token), 0, |token| + 1).Stop?
  {
    StopsIff(Loop(scan, token), 0, |token|);
  }

  lemma StillGoing(scan: Scanner, token: seq<Byte>)
    requires Walk(Loop(scan, token), 0, |token| + 1).Go?
    ensures !Stops(Loop(scan, token), 0)
  {
    LoopStopsIff(scan, token);
  }

  // ---------- wrapped sums ----------

  /** The field at index i ends at or beyond 2^63. */
  predicate WrapsAt(scan: Scanner, token: seq<Byte>, i: nat) {
    i < |token| &&
    match scan(token, i)
    case Bad(_) => false
    case Take(_, end) => end >= TWO_63
    case Skip(end) => end >= TWO_63
  }

  /** The walk from index i comes to such a field. */
  ghost predicate WalkWraps(scan: Scanner, token: seq<Byte>, i: nat) {
    exists k: nat :: Walk(Loop(scan, token), i, k).Go? && WrapsAt(scan, token, Walk(Loop(scan, token), i, k).index)
  }

  lemma NoWrapFrom(scan: Scanner, token: seq<Byte>, i: nat)
    requires !WalkWraps(scan, token, i)
    ensures !WrapsAt(scan, token, i)
    ensures Next(scan, token, i).Go? ==> !WalkWraps(scan, token, Next(scan, token, i).index)
  {
    var next := Loop(scan, token);
    assert Walk(next, i, 0) == Go(i);
    if next(i).Go? {
      forall k: nat | Walk(next, next(i).index, k).Go?
        ensures !WrapsAt(scan, token, Walk(next, next(i).index, k).index)
      {
        assert Walk(next, i, k + 1) == Walk(next, next(i).index, k);
      }
    }
  }

  /** Fields end behind where they start, and the workflow id starts inside its field. */
  ghost predicate Bounded(scan: Scanner, token: seq<Byte>) {
    forall i: nat :: i < |token| ==>
      match scan(token, i)
      case Bad(_) => true
      case Skip(end) => i < end
      case Take(start, end) => i < start <= |token| && start <= end
  }

  lemma {:induction false} IndexGrows(scan: Scanner, token: seq<Byte>, i: nat, k: nat)
    requires Bounded(scan, token) && !WalkWraps(scan, token, i)
    ensures Walk(Loop(scan, token), i, k) != Stop(Panics)
    ensures Walk(Loop(scan, token), i, k).Go? ==> i + k <= Walk(Loop(scan, token), i, k).index
    decreases k
  {
    if k > 0 {
      NoWrapFrom(scan, token, i);
      if Next(scan, token, i).Go? { IndexGrows(scan, token, Next(scan, token, i).index, k - 1); }
    }
  }

  /** On every token whose walk meets no wrapped sum the index grows in each round, no slice is
      out of range, and the loop ends within |token| + 1 rounds. */
  lemma ParseIsBounded(scan: Scanner, token: seq<Byte>, k: nat)
    requires Bounded(scan, token) && !WalkWraps(scan, token, 0)
    ensures var next := Loop(scan, token);
            && Walk(next, 0, k) != Stop(Panics)
            && (Walk(next, 0, k + 1).Go? ==>
                  Walk(next, 0, k).Go? && Walk(next, 0, k).index < Walk(next, 0, k + 1).index)
            && (|token| < k ==> Walk(next, 0, k).Stop?)
  {
    var next := Loop(scan, token);
    IndexGrows(scan, token, 0, k);
    WalkOn(next, 0, k, 1);
    if Walk(next, 0, k + 1).Go? {
      var j := Walk(next, 0, k).index;
      assert !WrapsAt(scan, token, j);
      assert Walk(next, j, 1) == next(j);
    }
    if |token| < k { BeyondTheEnd(scan, token, k); }
  }

  lemma BeyondTheEnd(scan: Scanner, token: seq<Byte>, k: nat)
    requires Bounded(scan, token) && !WalkWraps(scan, token, 0) && |token| < k
    ensures Walk(Loop(scan, token), 0, k).Stop?
  {
    IndexGrows(scan, token, 0, k - 1);
    WalkOn(Loop(scan, token), 0, k - 1, 1);
  }

  /** A first field that ends, modulo 2^64, where it starts is read forever. */
  lemma EndsAtStart(scan: Scanner, token: seq<Byte>)
    requires 0 < |token| && scan(token, 0) == Skip(TWO_64)
    ensures !Stops(Loop(scan, token), 0)
  {
    var next := Loop(scan, token);
    assert Walk(next, 0, 0) == Go(0) && Walk(next, 0, 1) == next(0);
    LoopStopsIff(scan, token);
  }

  // ---------- paths ----------

  /** Following skipped fields leads from index i through `ends` to index j. */
  ghost predicate Path(scan: Scanner, token: seq<Byte>, i: nat, ends: seq<nat>, j: nat)
    decreases |ends|
  {
    if ends == [] then i == j else
      i < ends[0] <= |token| && scan(token, i) == Skip(ends[0]) && Path(scan, token, ends[0], ends[1..], j)
  }

  lemma {:induction false} PathWalk(scan: Scanner, token: seq<Byte>, i: nat, ends: seq<nat>, j: nat, k: nat)
    requires |token| < TWO_63 && Path(scan, token, i, ends, j)
    ensures Walk(Loop(scan, token), i, |ends| + k) == Walk(Loop(scan, token), j, k)
    decreases |ends|
  {
    if ends != [] {
      PathWalk(scan, token, ends[0], ends[1..], j, k);
      assert Next(scan, token, i) == Go(ends[0]);
    }
  }

  lemma {:induction false} PathMeetsNoWrap(scan: Scanner, token: seq<Byte>, i: nat, ends: seq<nat>, j: nat, k: nat)
    requires |token| < TWO_63 && Path(scan, token, i, ends, j)
    requires Next(scan, token, j).Stop? || Next(scan, token, j).index >= |token|
    requires !WrapsAt(scan, token, j) && Walk(Loop(scan, token), i, k).Go?
    ensures !WrapsAt(scan, token, Walk(Loop(scan, token), i, k).index)
    decreases |ends|
  {
    if ends != [] && k > 0 {
      assert Next(scan, token, i) == Go(ends[0]);
      PathMeetsNoWrap(scan, token, ends[0], ends[1..], j, k - 1);
    }
  }

  /** Complete skipped fields that lead to an index where a complete payload is taken make the walk
      return that payload without meeting a wrapped sum ... */
  lemma PathIsWalked(scan: Scanner, token: seq<Byte>, ends: seq<nat>, j: nat)
    requires |token| < TWO_63 && Path(scan, token, 0, ends, j) && j < |token|
    requires scan(token, j).Take? && scan(token, j).start <= scan(token, j).end <= |token|
    ensures Returns(Loop(scan, token), 0, Found(token[scan(token, j).start..scan(token, j).end]))
    ensures !WalkWraps(scan, token, 0)
  {
    var next := Loop(scan, token);
    PathWalk(scan, token, 0, ends, j, 1);
    assert Walk(next, j, 1) == next(j);
    assert Walk(next, 0, |ends| + 1) == Stop(Found(token[scan(token, j).start..scan(token, j).end]));
    forall k: nat | Walk(next, 0, k).Go? ensures !WrapsAt(scan, token, Walk(next, 0, k).index) {
      PathMeetsNoWrap(scan, token, 0, ends, j, k);
    }
  }

  lemma PathToEnd(scan: Scanner, token: seq<Byte>, ends: seq<nat>)
    requires |token| < TWO_63 && Path(scan, token, 0, ends, |token|)
    ensures Returns(Loop(scan, token), 0, Failed(NotFound))
  {
    PathWalk(scan, token, 0, ends, |token|, 1);
    assert Walk(Loop(scan, token), |token|, 1) == Stop(Failed(NotFound));
    assert Walk(Loop(scan, token), 0, |ends| + 1) == Stop(Failed(NotFound));
  }

  /** ... and whatever the walk returns without meeting a wrapped sum was reached in this way. */
  lemma {:induction false} WalkIsPath(scan: Scanner, token: seq<Byte>, i: nat, s: seq<Byte>, k: nat)
    returns (ends: seq<nat>, j: nat)
    requires |token| < TWO_63 && Bounded(scan, token)
    requires Walk(Loop(scan, token), i, k) == Stop(Found(s)) && !WalkWraps(scan, token, i)
    ensures Path(scan, token, i, ends, j) && i <= j < |token|
    ensures scan(token, j).Take? && scan(token, j).start <= scan(token, j).end <= |token|
    ensures s == token[scan(token, j).start..scan(token, j).end]
    decreases k
  {
    NoWrapFrom(scan, token, i);
    if scan(token, i).Take? {
      ends, j := [], i;
    } else {
      var end := scan(token, i).end;
      ends, j := WalkIsPath(scan, token, end, s, k - 1);
      var all := [end] + ends;
      assert all[0] == end && all[1..] == ends;
      ends := all;
    }
  }
}
