/**
  Loops over one index, for any loop body: a round either leaves the loop with an outcome or goes
  on at another index.  Such a loop need not end; it ends exactly when no index comes up twice.
 */
module Rounds {

  datatype Round<T> = Stop(outcome: T) | Go(index: nat)

  /** Where the loop is after k rounds from index i. */
  function Walk<T>(next: nat -> Round<T>, i: nat, k: nat): Round<T>
    decreases k
  {
    if k == 0 then Go(i) else
      match next(i)
      case Stop(o) => Stop(o)
      case Go(j) => Walk(next, j, k - 1)
  }

  ghost predicate Returns<T>(next: nat -> Round<T>, i: nat, o: T) {
    exists k: nat :: Walk(next, i, k) == Stop(o)
  }

  ghost predicate Stops<T>(next: nat -> Round<T>, i: nat) {
    exists k: nat :: Walk(next, i, k).Stop?
  }

  /** Some index comes up twice. */
  ghost predicate Repeats<T>(next: nat -> Round<T>, i: nat) {
    exists a: nat, b: nat :: a < b && Walk(next, i, a).Go? && Walk(next, i, b) == Walk(next, i, a)
  }

  lemma {:induction false} WalkOn<T>(next: nat -> Round<T>, i: nat, a: nat, b: nat)
    ensures Walk(next, i, a + b) ==
              match Walk(next, i, a)
              case Stop(o) => Stop(o)
              case Go(j) => Walk(next, j, b)
    decreases a
  {
    if a > 0 && next(i).Go? { WalkOn(next, next(i).index, a - 1, b); }
  }

  lemma OneMore<T>(next: nat -> Round<T>, i: nat, k: nat)
    requires Walk(next, i, k).Go?
    ensures Walk(next, i, k + 1) == next(Walk(next, i, k).index)
  {
    WalkOn(next, i, k, 1);
  }

  /** A loop that has stopped did so in the round after some index. */
  lemma {:induction false} LastRound<T>(next: nat -> Round<T>, i: nat, k: nat) returns (j: nat)
    requires Walk(next, i, k).Stop?
    ensures Walk(next, i, j).Go? && next(Walk(next, i, j).index) == Walk(next, i, k)
    decreases k
  {
    j := 0;
    if next(i).Go? {
      j := LastRound(next, next(i).index, k - 1);
      j := j + 1;
    }
  }

  lemma ReturnsAt<T>(next: nat -> Round<T>, i: nat, k: nat, o: T)
    requires Walk(next, i, k) == Stop(o)
    ensures Returns(next, i, o) && Stops(next, i)
  {
  }

  lemma OneOutcome<T>(next: nat -> Round<T>, i: nat, o: T, p: T)
    requires Returns(next, i, o) && Returns(next, i, p)
    ensures o == p
  {
    var a: nat :| Walk(next, i, a) == Stop(o);
    var b: nat :| Walk(next, i, b) == Stop(p);
    if a <= b { WalkOn(next, i, a, b - a); } else { WalkOn(next, i, b, a - b); }
  }

  /** From a repeated index the loop goes round and round. */
  lemma {:induction false} RepeatsGoesOn<T>(next: nat -> Round<T>, i: nat, a: nat, b: nat, k: nat)
    requires a < b && Walk(next, i, a).Go? && Walk(next, i, b) == Walk(next, i, a)
    ensures Walk(next, i, k).Go?
    decreases k
  {
    if k < b {
      WalkOn(next, i, k, b - k);
    } else {
      WalkOn(next, i, b, k - b);
      WalkOn(next, i, a, k - b);
      RepeatsGoesOn(next, i, a, b, a + (k - b));
    }
  }

  lemma {:induction false} Pigeonhole(s: set<nat>, n: nat)
    requires forall x :: x in s ==> x < n
    ensures |s| <= n
    decreases n
  {
    if n == 0 {
      assert s == {};
    } else {
      Pigeonhole(s - {n - 1}, n - 1);
    }
  }

  ghost predicate Seen<T>(next: nat -> Round<T>, i: nat, k: nat, x: nat) {
    exists a: nat :: a < k && Walk(next, i, a) == Go(x)
  }

  /** The indices of the first k rounds: all different, if none comes up twice. */
  lemma {:induction false} Visited<T>(next: nat -> Round<T>, i: nat, k: nat) returns (s: set<nat>)
    requires !Repeats(next, i) && Walk(next, i, k).Go?
    ensures |s| == k && forall x :: x in s ==> Seen(next, i, k, x)
    decreases k
  {
    if k == 0 {
      s := {};
    } else {
      WalkOn(next, i, k - 1, 1);
      var before := Visited(next, i, k - 1);
      var x := Walk(next, i, k - 1).index;
      assert x !in before;
      s := before + {x};
      forall y | y in s ensures Seen(next, i, k, y) {
        if y in before {
          var a: nat :| a < k - 1 && Walk(next, i, a) == Go(y);
        } else {
          assert Walk(next, i, k - 1) == Go(y);
        }
      }
    }
  }

  /** A loop that leaves at every index from n on ends exactly when no index comes up twice, and
      then within n + 1 rounds. */
  lemma StopsIff<T>(next: nat -> Round<T>, i: nat, n: nat)
    requires forall j: nat :: n <= j ==> next(j).Stop?
    ensures Stops(next, i) <==> !Repeats(next, i)
    ensures Stops(next, i) <==> Walk(next, i, n + 1).Stop?
  {
    if Repeats(next, i) {
      var a: nat, b: nat :| a < b && Walk(next, i, a).Go? && Walk(next, i, b) == Walk(next, i, a);
      forall k: nat ensures Walk(next, i, k).Go? { RepeatsGoesOn(next, i, a, b, k); }
    } else if Walk(next, i, n + 1).Go? {
      var s := Visited(next, i, n + 1);
      forall x | x in s ensures x < n {
        var a: nat :| a < n + 1 && Walk(next, i, a) == Go(x);
        WalkOn(next, i, a, n + 1 - a);
      }
      Pigeonhole(s, n);
      assert false;
    }
  }
}
