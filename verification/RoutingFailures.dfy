/**
  How promises are broken: runs from the start, for every hash, replica count, workflow id and pair
  of physical namespaces.  In all of them one namespace is replaced by another at a bad moment.
 */
module RoutingFailures {
  import opened Options
  import Rings
  import RingHistory
  import opened PhysicalNames
  import opened VirtualNamespaces
  import opened Routing
  import opened RoutingSafety
  import opened RoutingRuns
  import opened SerialCalls

  // ---------- reaching a state ----------

  ghost predicate Reaches(w: World, s: Router, t: Router) {
    exists es :: IsRun(w, s, es) && After(w, s, es) == t
  }

  lemma ReachesSelf(w: World, s: Router)
    ensures Reaches(w, s, s)
  {
    assert IsRun(w, s, []) && After(w, s, []) == s;
  }

  lemma ReachesFrom(w: World, s: Router, e: Event, t: Router)
    requires Enabled(w, s, e) && Reaches(w, Step(w, s, e), t)
    ensures Reaches(w, s, t)
  {
    var es :| IsRun(w, Step(w, s, e), es) && After(w, Step(w, s, e), es) == t;
    RunCons(w, s, e, es);
  }

  lemma ReachesThrough(w: World, s: Router, es: seq<Event>, t: Router)
    requires IsRun(w, s, es) && Reaches(w, After(w, s, es), t)
    ensures Reaches(w, s, t)
  {
    var more :| IsRun(w, After(w, s, es), more) && After(w, After(w, s, es), more) == t;
    RunAppend(w, s, es, more, "");
  }

  lemma ReachesNext(w: World, s: Router, t: Router, e: Event)
    requires Reaches(w, s, t) && Enabled(w, t, e)
    ensures Reaches(w, s, Step(w, t, e))
  {
    var es :| IsRun(w, s, es) && After(w, s, es) == t;
    RunOne(w, t, e);
    RunAppend(w, s, es, [e], "");
  }

  lemma PutThenForward(w: World, s: Router, id: nat, home: Namespace, t: Router)
    requires id in s.flights && s.flights[id].Looked? && s.flights[id].kind == Start
    requires Parse(s.flights[id].slot) == Some(home)
    requires Reaches(w, s.(cache := s.cache[s.flights[id].wid := s.flights[id].slot],
                           flights := s.flights - {id}, open := s.open + {(s.flights[id].wid, home)}), t)
    ensures Reaches(w, s, t)
  {
    var s1 := Step(w, s, Put(id));
    assert s1.flights == s.flights[id := Routed(Start, s.flights[id].wid, home)];
    assert s1.flights - {id} == s.flights - {id};
    ReachesFrom(w, s1, Forward(id, true), t);
    ReachesFrom(w, s, Put(id), t);
  }

  lemma MissThenLookup(w: World, s: Router, id: nat, wid: string, t: Router)
    requires id !in s.flights && Cached(s, wid) == "" && w.vnsOf(wid) in s.registry
    requires Reaches(w, s.(flights := s.flights[id := Looked(Start, wid, Place(w, s, wid))]), t)
    ensures Reaches(w, s, t)
  {
    var s1 := Step(w, s, Begin(id, Start, wid));
    var looked := Looked(Start, wid, Place(w, s, wid));
    assert s1.flights[id := looked] == s.flights[id := looked];
    ReachesFrom(w, s1, Lookup(id), t);
    ReachesFrom(w, s, Begin(id, Start, wid), t);
  }

  // ---------- overlapping starts ----------

  /** Admin calls neither see nor touch what is in flight. */
  lemma {:induction false} AdminsIgnoreFlights(w: World, s: Router, admins: seq<Event>, flights: map<nat, Flight>)
    requires IsRun(w, s, admins) && forall e :: e in admins ==> Admin(e)
    ensures IsRun(w, s.(flights := flights), admins)
    ensures After(w, s.(flights := flights), admins) == After(w, s, admins).(flights := flights)
    ensures After(w, s, admins) == s.(registry := After(w, s, admins).registry)
    decreases |admins|
  {
    if admins != [] {
      var e := admins[0];
      assert Admin(e);
      assert Step(w, s.(flights := flights), e) == Step(w, s, e).(flights := flights);
      AdminsIgnoreFlights(w, Step(w, s, e), admins[1..], flights);
    }
  }

  /** Two starts of one id without an entry, overlapping admin calls that move its placement, can
      open the workflow on both namespaces. */
  lemma OverlappingStartsSplit(w: World, s: Router, admins: seq<Event>, wid: string, a: Namespace, b: Namespace)
    requires s.flights == map[] && Cached(s, wid) == "" && w.vnsOf(wid) in s.registry
    requires IsRun(w, s, admins) && (forall e :: e in admins ==> Admin(e))
    requires w.vnsOf(wid) in After(w, s, admins).registry
    requires Parse(Place(w, s, wid)) == Some(a) && Parse(Place(w, After(w, s, admins), wid)) == Some(b) && a != b
    ensures exists t :: Reaches(w, s, t) && (wid, a) in t.open && (wid, b) in t.open
  {
    var before, after := Place(w, s, wid), Place(w, After(w, s, admins), wid);
    var s2 := s.(flights := s.flights[0 := Looked(Start, wid, before)]);
    AdminsIgnoreFlights(w, s, admins, s2.flights);
    var s3 := After(w, s2, admins);
    var s5 := s3.(flights := s3.flights[1 := Looked(Start, wid, after)]);
    var s7 := s5.(cache := s5.cache[wid := before], flights := s5.flights - {0}, open := s5.open + {(wid, a)});
    var t := s7.(cache := s7.cache[wid := after], flights := s7.flights - {1}, open := s7.open + {(wid, b)});
    ReachesSelf(w, t);
    PutThenForward(w, s7, 1, b, t);
    PutThenForward(w, s5, 0, a, t);
    MissThenLookup(w, s3, 1, wid, t);
    ReachesThrough(w, s2, admins, t);
    MissThenLookup(w, s, 0, wid, t);
  }

  // ---------- one namespace replaced by another ----------

  predicate Differ(w: World, a: Namespace, b: Namespace) {
    0 < w.nodes && Clean(a.name, a.address) && Clean(b.name, b.address) && a != b
  }

  function Slot(a: Namespace): string {
    Build(a.name, a.address)
  }

  /** A virtual namespace with a alone on its ring. */
  function Alone(w: World, a: Namespace, statuses: map<string, Status>): VNamespace {
    VNamespace(Rings.AddSlot(w.hash, w.nodes, Rings.EMPTY, Slot(a)), statuses)
  }

  function AddOf(w: World, wid: string, a: Namespace): Event {
    AddNs(w.vnsOf(wid), a.name, a.address)
  }

  function RemoveOf(w: World, wid: string, a: Namespace): Event {
    RemoveNs(w.vnsOf(wid), a.name, a.address)
  }

  lemma AloneAnswers(w: World, s: Router, wid: string, a: Namespace, statuses: map<string, Status>)
    requires 0 < w.nodes && Clean(a.name, a.address) && s.registry == map[w.vnsOf(wid) := Alone(w, a, statuses)]
    ensures Place(w, s, wid) == Slot(a) && Parse(Place(w, s, wid)) == Some(a)
  {
    RingHistory.LoneSlot(w.hash, w.nodes, Slot(a), wid);
    ParseBuild(a.name, a.address);
  }

  /** The start: one virtual namespace with one physical namespace. */
  function Begun(w: World, wid: string, a: Namespace): Router {
    INITIAL.(registry := map[w.vnsOf(wid) := Alone(w, a, map[Slot(a) := Active])])
  }

  lemma Begins(w: World, wid: string, a: Namespace)
    ensures var s := INITIAL.(registry := map[w.vnsOf(wid) := FRESH]);
            && Enabled(w, INITIAL, Create(w.vnsOf(wid))) && Step(w, INITIAL, Create(w.vnsOf(wid))) == s
            && Enabled(w, s, AddOf(w, wid, a)) && Step(w, s, AddOf(w, wid, a)) == Begun(w, wid, a)
  {
    var v := w.vnsOf(wid);
    assert map[][v := FRESH] == map[v := FRESH];
    assert map[v := FRESH][v := Alone(w, a, map[Slot(a) := Active])] == map[v := Alone(w, a, map[Slot(a) := Active])];
    assert map[][Slot(a) := Active] == map[Slot(a) := Active];
  }

  lemma BegunIsReached(w: World, wid: string, a: Namespace, t: Router)
    requires Reaches(w, Begun(w, wid, a), t)
    ensures Reaches(w, INITIAL, t)
  {
    Begins(w, wid, a);
    ReachesFrom(w, INITIAL.(registry := map[w.vnsOf(wid) := FRESH]), AddOf(w, wid, a), t);
    ReachesFrom(w, INITIAL, Create(w.vnsOf(wid)), t);
  }

  /** The registry of the start, after a has been cordoned. */
  function Emptied(w: World, wid: string, a: Namespace): map<string, VNamespace> {
    map[w.vnsOf(wid) := VNamespace(Rings.EMPTY, map[Slot(a) := Cordoned])]
  }

  /** ... and after b has been added. */
  function Replaced(w: World, wid: string, a: Namespace, b: Namespace): map<string, VNamespace> {
    map[w.vnsOf(wid) := Alone(w, b, map[Slot(a) := Cordoned][Slot(b) := Active])]
  }

  lemma Replaces(w: World, wid: string, a: Namespace, b: Namespace, s: Router)
    requires s.registry == Begun(w, wid, a).registry
    ensures var s' := s.(registry := Emptied(w, wid, a));
            && Enabled(w, s, RemoveOf(w, wid, a)) && Step(w, s, RemoveOf(w, wid, a)) == s'
            && Enabled(w, s', AddOf(w, wid, b))
            && Step(w, s', AddOf(w, wid, b)) == s.(registry := Replaced(w, wid, a, b))
  {
    Rings.AddThenRemoveRestores(w.hash, w.nodes, Rings.EMPTY, Slot(a));
    assert map[Slot(a) := Active][Slot(a) := Cordoned] == map[Slot(a) := Cordoned];
    assert s.registry[w.vnsOf(wid) := Emptied(w, wid, a)[w.vnsOf(wid)]] == Emptied(w, wid, a);
    assert Emptied(w, wid, a)[w.vnsOf(wid) := Replaced(w, wid, a, b)[w.vnsOf(wid)]] == Replaced(w, wid, a, b);
  }

  lemma ReplaceRun(w: World, wid: string, a: Namespace, b: Namespace, s: Router)
    requires s.registry == Begun(w, wid, a).registry
    ensures var admins := [RemoveOf(w, wid, a)] + [AddOf(w, wid, b)];
            && IsRun(w, s, admins) && After(w, s, admins) == s.(registry := Replaced(w, wid, a, b))
            && forall e :: e in admins ==> Admin(e)
  {
    Replaces(w, wid, a, b, s);
    RunOne(w, Step(w, s, RemoveOf(w, wid, a)), AddOf(w, wid, b));
    RunCons(w, s, RemoveOf(w, wid, a), [AddOf(w, wid, b)]);
  }

  /** Two overlapping starts, with the namespace replaced in between, open the workflow twice. */
  lemma StartsCanSplit(w: World, wid: string, a: Namespace, b: Namespace)
    requires Differ(w, a, b)
    ensures exists t :: Reaches(w, INITIAL, t) && (wid, a) in t.open && (wid, b) in t.open
  {
    var s, admins := Begun(w, wid, a), [RemoveOf(w, wid, a)] + [AddOf(w, wid, b)];
    ReplaceRun(w, wid, a, b, s);
    AloneAnswers(w, s, wid, a, map[Slot(a) := Active]);
    AloneAnswers(w, After(w, s, admins), wid, b, map[Slot(a) := Cordoned][Slot(b) := Active]);
    OverlappingStartsSplit(w, s, admins, wid, a, b);
    var t :| Reaches(w, s, t) && (wid, a) in t.open && (wid, b) in t.open;
    BegunIsReached(w, wid, a, t);
  }

  /** A lookup answered before its namespace was cordoned is written to the cache after. */
  lemma CordonedAfterLookup(w: World, wid: string, a: Namespace)
    requires 0 < w.nodes && Clean(a.name, a.address)
    ensures exists t :: && Reaches(w, INITIAL, t) && Cached(t, wid) == ""
                        && t.flights == map[0 := Looked(Start, wid, Slot(a))]
                        && t.registry == Emptied(w, wid, a)
  {
    var s := Begun(w, wid, a);
    AloneAnswers(w, s, wid, a, map[Slot(a) := Active]);
    var looked := s.(flights := map[0 := Looked(Start, wid, Slot(a))]);
    Replaces(w, wid, a, a, looked);
    var t := looked.(registry := Emptied(w, wid, a));
    ReachesSelf(w, t);
    ReachesFrom(w, looked, RemoveOf(w, wid, a), t);
    assert s.flights[0 := Looked(Start, wid, Slot(a))] == map[0 := Looked(Start, wid, Slot(a))];
    MissThenLookup(w, s, 0, wid, t);
    BegunIsReached(w, wid, a, t);
  }

  // ---------- a workflow that outlives its namespace's place on the ring ----------

  /** The workflow runs on a, which has been replaced by b. */
  function Drained(w: World, wid: string, a: Namespace, b: Namespace): Router {
    Router(map[wid := Slot(a)], Replaced(w, wid, a, b), map[], {(wid, a)})
  }

  function StartOf(wid: string): Call {
    Serve(Start, wid, true)
  }

  lemma StartOnFirst(w: World, wid: string, a: Namespace)
    requires 0 < w.nodes && Clean(a.name, a.address)
    ensures Served(w, Begun(w, wid, a), StartOf(wid)) ==
            Router(map[wid := Slot(a)], Begun(w, wid, a).registry, map[], {(wid, a)})
  {
    var s := Begun(w, wid, a);
    AloneAnswers(w, s, wid, a, map[Slot(a) := Active]);
    ParseEmpty();
    assert Resolution(w, s, wid) == Some(a);
    assert map[][wid := Slot(a)] == map[wid := Slot(a)];
    assert map[0 := Routed(Start, wid, a)] - {0} == map[];
  }

  /** Calls, one at a time, that lead there. */
  function Setup(w: World, wid: string, a: Namespace, b: Namespace): seq<Call> {
    [Manage(Create(w.vnsOf(wid)))] + ([Manage(AddOf(w, wid, a))] + ([StartOf(wid)] +
    ([Manage(RemoveOf(w, wid, a))] + [Manage(AddOf(w, wid, b))])))
  }

  function SerialAfter(w: World, s: Router, calls: seq<Call>): Router
    requires Serial(w, s, calls)
    decreases |calls|
  {
    if calls == [] then s else SerialAfter(w, After(w, s, Steps(w, s, calls[0])), calls[1..])
  }

  lemma SerialCons(w: World, s: Router, c: Call, calls: seq<Call>)
    requires Possible(w, s, c) && IsRun(w, s, Steps(w, s, c)) && Serial(w, After(w, s, Steps(w, s, c)), calls)
    ensures Serial(w, s, [c] + calls)
    ensures SerialAfter(w, s, [c] + calls) == SerialAfter(w, After(w, s, Steps(w, s, c)), calls)
  {
    assert ([c] + calls)[0] == c && ([c] + calls)[1..] == calls;
  }

  lemma ManageCons(w: World, s: Router, e: Event, calls: seq<Call>)
    requires Admin(e) && Enabled(w, s, e) && Serial(w, Step(w, s, e), calls)
    ensures Serial(w, s, [Manage(e)] + calls)
    ensures SerialAfter(w, s, [Manage(e)] + calls) == SerialAfter(w, Step(w, s, e), calls)
  {
    RunOne(w, s, e);
    SerialCons(w, s, Manage(e), calls);
  }

  lemma SetupBegins(w: World, wid: string, a: Namespace, calls: seq<Call>)
    requires Serial(w, Begun(w, wid, a), calls)
    ensures var all := [Manage(Create(w.vnsOf(wid)))] + ([Manage(AddOf(w, wid, a))] + calls);
            Serial(w, INITIAL, all) && SerialAfter(w, INITIAL, all) == SerialAfter(w, Begun(w, wid, a), calls)
  {
    Begins(w, wid, a);
    ManageCons(w, INITIAL.(registry := map[w.vnsOf(wid) := FRESH]), AddOf(w, wid, a), calls);
    ManageCons(w, INITIAL, Create(w.vnsOf(wid)), [Manage(AddOf(w, wid, a))] + calls);
  }

  lemma SetupEnds(w: World, wid: string, a: Namespace, b: Namespace, s: Router)
    requires s.registry == Begun(w, wid, a).registry
    ensures var calls := [Manage(RemoveOf(w, wid, a))] + [Manage(AddOf(w, wid, b))];
            Serial(w, s, calls) && SerialAfter(w, s, calls) == s.(registry := Replaced(w, wid, a, b))
  {
    Replaces(w, wid, a, b, s);
    ManageCons(w, s.(registry := Emptied(w, wid, a)), AddOf(w, wid, b), []);
    assert [Manage(AddOf(w, wid, b))] + [] == [Manage(AddOf(w, wid, b))];
    ManageCons(w, s, RemoveOf(w, wid, a), [Manage(AddOf(w, wid, b))]);
  }

  lemma SetupDrains(w: World, wid: string, a: Namespace, b: Namespace)
    requires 0 < w.nodes && Clean(a.name, a.address)
    ensures Serial(w, INITIAL, Setup(w, wid, a, b))
    ensures SerialAfter(w, INITIAL, Setup(w, wid, a, b)) == Drained(w, wid, a, b)
  {
    var s := Begun(w, wid, a);
    var open := Served(w, s, StartOf(wid));
    StartOnFirst(w, wid, a);
    SetupEnds(w, wid, a, b, open);
    var calls := [Manage(RemoveOf(w, wid, a))] + [Manage(AddOf(w, wid, b))];
    ServeExact(w, s, StartOf(wid), wid);
    SerialCons(w, s, StartOf(wid), calls);
    SetupBegins(w, wid, a, [StartOf(wid)] + calls);
  }

  lemma DrainedFacts(w: World, wid: string, a: Namespace, b: Namespace)
    requires Differ(w, a, b)
    ensures var s := Drained(w, wid, a, b);
            Parse(Cached(s, wid)) == Some(a) && Resolution(w, s, wid) == Some(a) && Parse(Place(w, s, wid)) == Some(b)
  {
    ParseEmpty();
    ParseBuild(a.name, a.address);
    AloneAnswers(w, Drained(w, wid, a, b), wid, b, map[Slot(a) := Cordoned][Slot(b) := Active]);
  }

  lemma RejectionIsNotCalm(w: World, wid: string, a: Namespace, b: Namespace)
    requires Differ(w, a, b)
    ensures !CalmCall(w, Drained(w, wid, a, b), Serve(Complete, wid, false), wid)
  {
    DrainedFacts(w, wid, a, b);
  }

  /** Calls one at a time: once the home has been replaced, a rejected completion leaves the open
      workflow without a cache entry, and the next request for it goes to the wrong namespace. */
  lemma RejectedCompletionMisroutes(w: World, wid: string, a: Namespace, b: Namespace)
    requires Differ(w, a, b)
    ensures Serial(w, INITIAL, Setup(w, wid, a, b))
    ensures var s := SerialAfter(w, INITIAL, Setup(w, wid, a, b));
            && Possible(w, s, Serve(Complete, wid, false)) && IsRun(w, s, Steps(w, s, Serve(Complete, wid, false)))
            && var t := After(w, s, Steps(w, s, Serve(Complete, wid, false)));
               IsRun(w, t, Steps(w, t, Ask(wid))) && !NeverBroken(w, t, Steps(w, t, Ask(wid)), wid)
  {
    SetupDrains(w, wid, a, b);
    RejectionIsNotCalm(w, wid, a, b);
    UncalmCallMisroutes(w, Drained(w, wid, a, b), Serve(Complete, wid, false), wid);
  }

  // ---------- the window between cache delete and forwarding ----------

  /** No admin call and no rejection is needed: while a completion has deleted the cache entry and
      not yet been forwarded, a request for a workflow whose placement has moved is misrouted. */
  lemma DeleteEndangers(w: World, s: Router, id: nat, wid: string, b: Namespace)
    requires Enabled(w, s, Delete(id)) && s.flights[id].wid == wid && (wid, s.flights[id].home) in s.open
    requires Parse(Place(w, s, wid)) == Some(b) && b != s.flights[id].home
    ensures Endangered(w, Step(w, s, Delete(id)), wid)
  {
    UncachedElsewhere(w, Step(w, s, Delete(id)), wid, s.flights[id].home, b);
  }

  lemma {:induction false} SerialReaches(w: World, s: Router, calls: seq<Call>)
    requires Serial(w, s, calls)
    ensures Reaches(w, s, SerialAfter(w, s, calls))
    decreases |calls|
  {
    if calls == [] {
      ReachesSelf(w, s);
    } else {
      SerialReaches(w, After(w, s, Steps(w, s, calls[0])), calls[1..]);
      ReachesThrough(w, s, Steps(w, s, calls[0]), SerialAfter(w, s, calls));
    }
  }

  lemma DeleteWindowMisroutes(w: World, wid: string, a: Namespace, b: Namespace)
    requires Differ(w, a, b)
    ensures exists t :: && Reaches(w, INITIAL, t) && t.flights == map[0 := Routed(Complete, wid, a)]
                        && (wid, a) in t.open && Endangered(w, Step(w, t, Delete(0)), wid)
  {
    var s := Drained(w, wid, a, b);
    SetupDrains(w, wid, a, b);
    SerialReaches(w, INITIAL, Setup(w, wid, a, b));
    DrainedFacts(w, wid, a, b);
    ReachesNext(w, INITIAL, s, Begin(0, Complete, wid));
    var t := Step(w, s, Begin(0, Complete, wid));
    assert t == s.(flights := map[0 := Routed(Complete, wid, a)]) by {
      ParseEmpty();
      assert map[][0 := Routed(Complete, wid, a)] == map[0 := Routed(Complete, wid, a)];
    }
    DeleteEndangers(w, t, 0, wid, b);
  }
}
