/**
  The allocation counter under interleaving.  Resolve counts its answer just before it writes it,
  so here each Put counts.  Overlapping misses of one id count more than once.
 */
module Allocations {
  import opened PhysicalNames
  import opened VirtualNamespaces
  import Resolvers
  import opened Routing
  import opened RoutingRuns
  import opened RoutingFailures

  /**
    What happened to one slot: `counted` answers, `polled` entries that a poll made, `repeated`
    answers that were in the cache already, and `left` entries that were deleted or overwritten.
   */
  datatype Tally = Tally(counted: nat, polled: nat, repeated: nat, left: nat)

  const NOTHING := Tally(0, 0, 0, 0)

  predicate Writes(e: Event) {
    e.Put? || e.PollPut?
  }

  /** The step makes the entry of its request name something else than slot. */
  predicate Drops(s: Router, e: Event, slot: string) {
    e.Delete? || e.Finish? || (Writes(e) && e.id in s.flights && (s.flights[e.id].Looked? || s.flights[e.id].Polled?) &&
                               s.flights[e.id].slot != slot)
  }

  function StepTally(w: World, s: Router, e: Event, slot: string): Tally
    requires Enabled(w, s, e)
  {
    if !(Writes(e) || e.Delete? || e.Finish?) then NOTHING else
      var had := Cached(s, s.flights[e.id].wid) == slot;
      if Drops(s, e, slot) then (if had then NOTHING.(left := 1) else NOTHING)
      else if e.Put? then (if had then Tally(1, 0, 1, 0) else Tally(1, 0, 0, 0))
      else (if had then NOTHING else NOTHING.(polled := 1))
  }

  function Plus(a: Tally, b: Tally): Tally {
    Tally(a.counted + b.counted, a.polled + b.polled, a.repeated + b.repeated, a.left + b.left)
  }

  function RunTally(w: World, s: Router, es: seq<Event>, slot: string): Tally
    requires IsRun(w, s, es)
    decreases |es|
  {
    if es == [] then NOTHING else Plus(StepTally(w, s, es[0], slot), RunTally(w, Step(w, s, es[0]), es[1..], slot))
  }

  // ---------- the counter ----------

  /** A write by Resolve counts its answer, as one call does. */
  function CountedStep(w: World, s: Router, e: Event, allocations: map<string, nat>): map<string, nat>
    requires Enabled(w, s, e)
  {
    if e.Put? then
      var slot := s.flights[e.id].slot;
      allocations[slot := Resolvers.Count(allocations, slot) + 1]
    else allocations
  }

  /** The counters after a run. */
  function Counters(w: World, s: Router, es: seq<Event>, allocations: map<string, nat>): map<string, nat>
    requires IsRun(w, s, es)
    decreases |es|
  {
    if es == [] then allocations else Counters(w, Step(w, s, es[0]), es[1..], CountedStep(w, s, es[0], allocations))
  }

  function Counter(w: World, es: seq<Event>, slot: string): nat
    requires IsRun(w, INITIAL, es)
  {
    Resolvers.Count(Counters(w, INITIAL, es, map[]), slot)
  }

  lemma CountersCons(w: World, s: Router, e: Event, es: seq<Event>, allocations: map<string, nat>)
    requires Enabled(w, s, e) && IsRun(w, Step(w, s, e), es)
    ensures IsRun(w, s, [e] + es)
    ensures Counters(w, s, [e] + es, allocations) == Counters(w, Step(w, s, e), es, CountedStep(w, s, e, allocations))
  {
    assert ([e] + es)[0] == e && ([e] + es)[1..] == es;
  }

  lemma MissCounts(w: World, s: Router, id: nat, kind: Kind, wid: string, allocations: map<string, nat>)
    requires id !in s.flights && Cached(s, wid) == "" && w.vnsOf(wid) in s.registry
    ensures var es, slot := [Begin(id, kind, wid), Lookup(id), Put(id)], Place(w, s, wid);
            && IsRun(w, s, es)
            && Counters(w, s, es, allocations) == allocations[slot := Resolvers.Count(allocations, slot) + 1]
  {
    var slot := Place(w, s, wid);
    var missed := s.(flights := s.flights[id := Missed(kind, wid)]);
    var looked := s.(flights := s.flights[id := Looked(kind, wid, slot)]);
    assert Step(w, missed, Lookup(id)) == looked;
    CountersCons(w, looked, Put(id), [], allocations);
    CountersCons(w, missed, Lookup(id), [Put(id)] + [], allocations);
    CountersCons(w, s, Begin(id, kind, wid), [Lookup(id)] + ([Put(id)] + []), allocations);
    assert [Begin(id, kind, wid), Lookup(id), Put(id)] == [Begin(id, kind, wid)] + ([Lookup(id)] + ([Put(id)] + []));
  }

  /** Uninterrupted, the steps of a resolve leave the counters as the Resolve call does. */
  lemma StepsCountAsResolve(w: World, s: Router, id: nat, kind: Kind, wid: string, allocations: map<string, nat>)
    requires id !in s.flights
    ensures IsRun(w, s, ResolveSteps(w, s, id, kind, wid))
    ensures var place := Resolvers.Answer(w.hash, s.registry, wid, w.vnsOf(wid));
            Counters(w, s, ResolveSteps(w, s, id, kind, wid), allocations) ==
            Resolvers.Resolved(Resolvers.Store(s.cache, allocations), wid, place).allocations
    ensures var place := Resolvers.Answer(w.hash, s.registry, wid, w.vnsOf(wid));
            var resolved := Resolvers.Resolved(Resolvers.Store(s.cache, allocations), wid, place);
            forall slot :: Resolvers.Count(resolved.allocations, slot) ==
                           Resolvers.Count(allocations, slot) +
                           RunTally(w, s, ResolveSteps(w, s, id, kind, wid), slot).counted
  {
    StepsRefineResolve(w, s, id, kind, wid, allocations);
    var es := ResolveSteps(w, s, id, kind, wid);
    if Cached(s, wid) == "" && w.vnsOf(wid) in s.registry {
      MissCounts(w, s, id, kind, wid, allocations);
    } else {
      NoPutNoCount(w, s, es, allocations);
    }
    forall slot ensures Resolvers.Count(Counters(w, s, es, allocations), slot) ==
                        Resolvers.Count(allocations, slot) + RunTally(w, s, es, slot).counted
    {
      TallyIsCounter(w, s, es, allocations, slot);
    }
  }

  lemma {:induction false} NoPutNoCount(w: World, s: Router, es: seq<Event>, allocations: map<string, nat>)
    requires IsRun(w, s, es) && forall e :: e in es ==> !e.Put?
    ensures Counters(w, s, es, allocations) == allocations
    decreases |es|
  {
    if es != [] {
      assert !es[0].Put?;
      NoPutNoCount(w, Step(w, s, es[0]), es[1..], allocations);
    }
  }

  /** Over every run the tally counts exactly what the counter does. */
  lemma {:induction false} TallyIsCounter(w: World, s: Router, es: seq<Event>, allocations: map<string, nat>,
                                          slot: string)
    requires IsRun(w, s, es)
    ensures Resolvers.Count(Counters(w, s, es, allocations), slot) ==
            Resolvers.Count(allocations, slot) + RunTally(w, s, es, slot).counted
    decreases |es|
  {
    if es != [] {
      TallyMeans(w, s, es[0], slot);
      TallyIsCounter(w, Step(w, s, es[0]), es[1..], CountedStep(w, s, es[0], allocations), slot);
    }
  }

  /** A step counts slot exactly if it writes slot as an answer of the ring, and repeats it exactly
      if the entry said slot before. */
  lemma TallyMeans(w: World, s: Router, e: Event, slot: string)
    requires Enabled(w, s, e)
    ensures var d := StepTally(w, s, e, slot);
            && d.counted == (if e.Put? && s.flights[e.id].slot == slot then 1 else 0)
            && d.repeated == (if d.counted == 1 && Cached(s, s.flights[e.id].wid) == slot then 1 else 0)
            && (d.polled > 0 ==> e.PollPut?)
  {
  }

  /** Caches that differ at most in the entry of wid. */
  lemma EntryChange(cache: map<string, string>, after: map<string, string>, wid: string, slot: string)
    requires slot != "" && forall x :: x != wid ==> Resolvers.Get(after, x) == Resolvers.Get(cache, x)
    ensures var was, now := Resolvers.CachedTo(cache, slot), Resolvers.CachedTo(after, slot);
            && |now - was| == (if Resolvers.Get(after, wid) == slot != Resolvers.Get(cache, wid) then 1 else 0)
            && |was - now| == (if Resolvers.Get(cache, wid) == slot != Resolvers.Get(after, wid) then 1 else 0)
  {
    var was, now := Resolvers.CachedTo(cache, slot), Resolvers.CachedTo(after, slot);
    forall x | x != wid ensures x in now <==> x in was {
      assert Resolvers.Get(after, x) == Resolvers.Get(cache, x);
    }
    assert now - was == if wid in now && wid !in was then {wid} else {};
    assert was - now == if wid in was && wid !in now then {wid} else {};
  }

  lemma OneEntry(w: World, s: Router, e: Event, slot: string)
    requires Enabled(w, s, e) && slot != "" && (Writes(e) || e.Delete? || e.Finish?)
    ensures var after, wid := Step(w, s, e).cache, s.flights[e.id].wid;
            && (Resolvers.Get(after, wid) == slot <==> !Drops(s, e, slot))
            && forall x :: x != wid ==> Resolvers.Get(after, x) == Resolvers.Get(s.cache, x)
  {
  }

  /** The ids that start to be cached to slot are those counted or polled and not repeated, and the
      ids that cease to be are those that have left. */
  lemma TallyIsChange(w: World, s: Router, e: Event, slot: string)
    requires Enabled(w, s, e) && slot != ""
    ensures var d, now := StepTally(w, s, e, slot), Resolvers.CachedTo(Step(w, s, e).cache, slot);
            && |now - Resolvers.CachedTo(s.cache, slot)| == d.counted + d.polled - d.repeated
            && |Resolvers.CachedTo(s.cache, slot) - now| == d.left
  {
    var after := Step(w, s, e).cache;
    if Writes(e) || e.Delete? || e.Finish? {
      OneEntry(w, s, e, slot);
      EntryChange(s.cache, after, s.flights[e.id].wid, slot);
    } else {
      assert after == s.cache;
      EntryChange(s.cache, after, "", slot);
    }
  }

  // ---------- the balance ----------

  function CachedIds(s: Router, slot: string): nat {
    |Resolvers.CachedTo(s.cache, slot)|
  }

  lemma Shift(was: set<string>, now: set<string>)
    ensures |was| + |now - was| == |now| + |was - now|
  {
    assert was == (was * now) + (was - now) && now == (was * now) + (now - was);
  }

  lemma StepBalances(w: World, s: Router, e: Event, slot: string)
    requires Enabled(w, s, e) && slot != ""
    ensures var d := StepTally(w, s, e, slot);
            d.counted + d.polled + CachedIds(s, slot) == CachedIds(Step(w, s, e), slot) + d.repeated + d.left
  {
    TallyIsChange(w, s, e, slot);
    Shift(Resolvers.CachedTo(s.cache, slot), Resolvers.CachedTo(Step(w, s, e).cache, slot));
  }

  /** Over every interleaved run the counter of a namespace and the ids cached to it differ by
      exactly the answers found in the cache already, the entries lost and the entries polls made. */
  lemma {:induction false} AllocationBalance(w: World, s: Router, es: seq<Event>, slot: string)
    requires IsRun(w, s, es) && slot != ""
    ensures var d := RunTally(w, s, es, slot);
            d.counted + d.polled + CachedIds(s, slot) == CachedIds(After(w, s, es), slot) + d.repeated + d.left
    decreases |es|
  {
    if es != [] {
      StepBalances(w, s, es[0], slot);
      AllocationBalance(w, Step(w, s, es[0]), es[1..], slot);
    }
  }

  /** From the start: the counter equals the number of cached ids if and only if polls have made as
      many entries as answers were repeated and entries lost. */
  lemma CounterIsExact(w: World, es: seq<Event>, slot: string)
    requires IsRun(w, INITIAL, es) && slot != ""
    ensures var d := RunTally(w, INITIAL, es, slot);
            && Counter(w, es, slot) + d.polled == CachedIds(After(w, INITIAL, es), slot) + d.repeated + d.left
            && (Counter(w, es, slot) == CachedIds(After(w, INITIAL, es), slot) <==> d.polled == d.repeated + d.left)
  {
    AllocationBalance(w, INITIAL, es, slot);
    TallyIsCounter(w, INITIAL, es, map[], slot);
    assert Resolvers.CachedTo(map[], slot) == {};
  }

  // ---------- overlapping misses ----------

  /** Two requests have looked up the same slot. */
  function BothLooked(s: Router, wid: string, slot: string): Router {
    s.(flights := map[0 := Looked(Touch, wid, slot)][1 := Looked(Touch, wid, slot)])
  }

  lemma TallyOne(w: World, s: Router, e: Event, slot: string)
    requires Enabled(w, s, e)
    ensures IsRun(w, s, [e]) && After(w, s, [e]) == Step(w, s, e)
    ensures RunTally(w, s, [e], slot).counted == StepTally(w, s, e, slot).counted
  {
    RunOne(w, s, e);
    assert [e][0] == e && [e][1..] == [];
  }

  lemma PutCounts(w: World, s: Router, id: nat, slot: string)
    requires Enabled(w, s, Put(id)) && s.flights[id].slot == slot
    ensures StepTally(w, s, Put(id), slot).counted == 1
    ensures Step(w, s, Put(id)).cache == s.cache[s.flights[id].wid := slot]
  {
  }

  lemma PutSparesOthers(w: World, s: Router, id: nat, other: nat)
    requires Enabled(w, s, Put(id)) && other != id && other in s.flights
    ensures other in Step(w, s, Put(id)).flights && Step(w, s, Put(id)).flights[other] == s.flights[other]
  {
  }

  lemma CountsTwo(w: World, s: Router, t: Router, slot: string)
    requires Enabled(w, s, Put(0)) && t == Step(w, s, Put(0)) && Enabled(w, t, Put(1))
    requires StepTally(w, s, Put(0), slot).counted == 1 && StepTally(w, t, Put(1), slot).counted == 1
    ensures var puts := [Put(0)] + [Put(1)];
            IsRun(w, s, puts) && RunTally(w, s, puts, slot).counted == 2 && After(w, s, puts) == Step(w, t, Put(1))
  {
    TallyOne(w, s, Put(0), slot);
    TallyOne(w, t, Put(1), slot);
    TallyAppend(w, s, [Put(0)], [Put(1)], slot);
  }

  lemma TwoPuts(w: World, s: Router, wid: string, slot: string)
    requires slot != "" && s.cache == map[]
    requires {0, 1} <= s.flights.Keys && s.flights[0] == s.flights[1] == Looked(Touch, wid, slot)
    ensures var puts := [Put(0)] + [Put(1)];
            IsRun(w, s, puts) && RunTally(w, s, puts, slot).counted == 2 && After(w, s, puts).cache == map[wid := slot]
  {
    var t := Step(w, s, Put(0));
    PutCounts(w, s, 0, slot);
    PutSparesOthers(w, s, 0, 1);
    PutCounts(w, t, 1, slot);
    CountsTwo(w, s, t, slot);
  }

  lemma TwoMisses(w: World, s: Router, wid: string)
    requires s.flights == map[] && Cached(s, wid) == "" && w.vnsOf(wid) in s.registry
    ensures var es := [Begin(0, Touch, wid), Lookup(0), Begin(1, Touch, wid), Lookup(1)];
            IsRun(w, s, es) && After(w, s, es) == BothLooked(s, wid, Place(w, s, wid))
  {
    var looked := Looked(Touch, wid, Place(w, s, wid));
    var s1, s2 := s.(flights := map[0 := Missed(Touch, wid)]), s.(flights := map[0 := looked]);
    var s3 := s.(flights := map[0 := looked][1 := Missed(Touch, wid)]);
    RunOne(w, s3, Lookup(1));
    assert map[0 := looked][1 := Missed(Touch, wid)][1 := looked] == map[0 := looked][1 := looked];
    RunCons(w, s2, Begin(1, Touch, wid), [Lookup(1)]);
    assert map[0 := Missed(Touch, wid)][0 := looked] == map[0 := looked];
    RunCons(w, s1, Lookup(0), [Begin(1, Touch, wid)] + [Lookup(1)]);
    assert map[][0 := Missed(Touch, wid)] == map[0 := Missed(Touch, wid)];
    RunCons(w, s, Begin(0, Touch, wid), [Lookup(0)] + ([Begin(1, Touch, wid)] + [Lookup(1)]));
    assert [Begin(0, Touch, wid), Lookup(0), Begin(1, Touch, wid), Lookup(1)] ==
           [Begin(0, Touch, wid)] + ([Lookup(0)] + ([Begin(1, Touch, wid)] + [Lookup(1)]));
  }

  lemma {:induction false} TallyAppend(w: World, s: Router, a: seq<Event>, b: seq<Event>, slot: string)
    requires IsRun(w, s, a) && IsRun(w, After(w, s, a), b)
    ensures IsRun(w, s, a + b) && After(w, s, a + b) == After(w, After(w, s, a), b)
    ensures RunTally(w, s, a + b, slot).counted ==
            RunTally(w, s, a, slot).counted + RunTally(w, After(w, s, a), b, slot).counted
    decreases |a|
  {
    if a == [] {
      assert a + b == b;
    } else {
      assert (a + b)[0] == a[0] && (a + b)[1..] == a[1..] + b;
      TallyAppend(w, Step(w, s, a[0]), a[1..], b, slot);
    }
  }

  /** Two overlapping misses of one id are counted twice, with that one id cached. */
  lemma MissesCountTwice(w: World, s: Router, wid: string, slot: string)
    requires s.flights == map[] && s.cache == map[] && w.vnsOf(wid) in s.registry
    requires slot == Place(w, s, wid) && slot != ""
    ensures exists es :: && IsRun(w, s, es) && RunTally(w, s, es, slot).counted == 2
                         && CachedIds(After(w, s, es), slot) == 1
  {
    var misses, puts := [Begin(0, Touch, wid), Lookup(0), Begin(1, Touch, wid), Lookup(1)], [Put(0)] + [Put(1)];
    TwoMisses(w, s, wid);
    TwoPuts(w, BothLooked(s, wid, slot), wid, slot);
    NoWritesCountNothing(w, s, misses, slot);
    TallyAppend(w, s, misses, puts, slot);
    assert Resolvers.CachedTo(map[wid := slot], slot) == {wid};
  }

  lemma {:induction false} NoWritesCountNothing(w: World, s: Router, es: seq<Event>, slot: string)
    requires IsRun(w, s, es) && forall e :: e in es ==> !e.Put?
    ensures RunTally(w, s, es, slot).counted == 0
    decreases |es|
  {
    if es != [] {
      assert !es[0].Put?;
      NoWritesCountNothing(w, Step(w, s, es[0]), es[1..], slot);
    }
  }

  lemma SetupRun(w: World, wid: string, a: Namespace)
    ensures var setup := [Create(w.vnsOf(wid))] + [AddOf(w, wid, a)];
            && IsRun(w, INITIAL, setup) && After(w, INITIAL, setup) == Begun(w, wid, a)
            && forall e :: e in setup ==> !e.Put?
  {
    Begins(w, wid, a);
    RunOne(w, Step(w, INITIAL, Create(w.vnsOf(wid))), AddOf(w, wid, a));
    RunCons(w, INITIAL, Create(w.vnsOf(wid)), [AddOf(w, wid, a)]);
  }

  lemma CountedLater(w: World, s: Router, setup: seq<Event>, es: seq<Event>, slot: string)
    requires IsRun(w, s, setup) && IsRun(w, After(w, s, setup), es) && forall e :: e in setup ==> !e.Put?
    ensures IsRun(w, s, setup + es) && After(w, s, setup + es) == After(w, After(w, s, setup), es)
    ensures RunTally(w, s, setup + es, slot).counted == RunTally(w, After(w, s, setup), es, slot).counted
  {
    NoWritesCountNothing(w, s, setup, slot);
    TallyAppend(w, s, setup, es, slot);
  }

  /** From the start, for every hash, id and namespace, there is such a run. */
  lemma OverlappingMissesCountTwice(w: World, wid: string, a: Namespace)
    requires 0 < w.nodes && Clean(a.name, a.address)
    ensures exists es :: && IsRun(w, INITIAL, es) && Counter(w, es, Slot(a)) == 2
                         && CachedIds(After(w, INITIAL, es), Slot(a)) == 1
  {
    var s, slot := Begun(w, wid, a), Slot(a);
    AloneAnswers(w, s, wid, a, map[slot := Active]);
    MissesCountTwice(w, s, wid, slot);
    var es :| IsRun(w, s, es) && RunTally(w, s, es, slot).counted == 2 && CachedIds(After(w, s, es), slot) == 1;
    SetupRun(w, wid, a);
    var all := [Create(w.vnsOf(wid))] + [AddOf(w, wid, a)] + es;
    CountedLater(w, INITIAL, [Create(w.vnsOf(wid))] + [AddOf(w, wid, a)], es, slot);
    TallyIsCounter(w, INITIAL, all, map[], slot);
    assert Counter(w, all, slot) == 2;
  }
}
