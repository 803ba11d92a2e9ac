/**
  Handlers that run one at a time.  Between calls nothing is in flight, so what can go wrong is
  little: the exact condition on each call is stated on the state before it.
 */
module SerialCalls {
  import opened Options
  import opened PhysicalNames
  import opened Routing
  import opened RoutingSafety
  import opened RoutingRuns

  datatype Call =
    | Serve(kind: Kind, wid: string, accepted: bool)
    | Poll(wid: string, slot: string)
    | Manage(admin: Event)
    | End(wid: string, home: Namespace)

  function Send(kind: Kind, accepted: bool): Event {
    if kind == Complete then Finish(0, accepted) else Forward(0, accepted)
  }

  function SendSteps(w: World, s: Router, kind: Kind, wid: string, accepted: bool): seq<Event> {
    if Resolution(w, s, wid).Some? then [Send(kind, accepted)] else []
  }

  /** The uninterrupted steps of one call; the cluster may accept what it is sent or not. */
  function Steps(w: World, s: Router, c: Call): seq<Event> {
    match c
    case Manage(e) => [e]
    case End(wid, home) => [Expire(wid, home)]
    case Poll(wid, slot) => [Handout(0, wid, slot), PollPut(0)]
    case Serve(kind, wid, accepted) => ResolveSteps(w, s, 0, kind, wid) + SendSteps(w, s, kind, wid, accepted)
  }

  predicate Possible(w: World, s: Router, c: Call) {
    match c
    case Manage(e) => Admin(e) && Enabled(w, s, e)
    case End(wid, home) => Enabled(w, s, Expire(wid, home))
    case Poll(wid, slot) => Enabled(w, s, Handout(0, wid, slot))
    case Serve(_, _, _) => true
  }

  predicate Idle(s: Router) {
    s.flights == map[]
  }

  /** A completion of wid that its home rejects although wid is open there. */
  predicate Rejects(w: World, s: Router, c: Call, wid: string) {
    var home := Resolution(w, s, wid);
    && c.Serve? && c.kind == Complete && c.wid == wid && !c.accepted
    && home.Some? && (wid, home.value) in s.open
  }

  /**
    A call is calm for wid unless it is a rejected completion of wid whose placement has moved
    away from its open home, or an admin call that moves the placement away from an open home of
    wid while wid has no cache entry.
   */
  ghost predicate CalmCall(w: World, s: Router, c: Call, wid: string)
    requires Possible(w, s, c)
  {
    && (Rejects(w, s, c, wid) ==> Parse(Place(w, s, wid)) in {None, Resolution(w, s, wid)})
    && (c.Manage? && Cached(s, wid) == "" ==>
          forall home :: (wid, home) in s.open ==> Parse(Place(w, Step(w, s, c.admin), wid)) in {None, Some(home)})
  }

  // ---------- the steps of a call ----------

  lemma SendExact(w: World, s: Router, kind: Kind, x: string, home: Namespace, accepted: bool, wid: string)
    requires s.flights == map[0 := Routed(kind, x, home)]
    ensures Enabled(w, s, Send(kind, accepted)) && Idle(Step(w, s, Send(kind, accepted)))
    ensures Calm(w, s, Send(kind, accepted), wid) <==>
            (kind == Complete && x == wid && (wid, home) in s.open && !accepted ==>
               Parse(Place(w, s, wid)) in {None, Some(home)})
  {
    assert s.flights - {0} == map[];
  }

  /** The state a served request leaves behind. */
  function Served(w: World, s: Router, c: Call): Router
    requires Idle(s) && c.Serve?
  {
    var t := AfterResolve(w, s, 0, c.kind, c.wid);
    if Resolution(w, s, c.wid).Some? then
      assert t.flights == map[0 := Routed(c.kind, c.wid, Resolution(w, s, c.wid).value)];
      Step(w, t, Send(c.kind, c.accepted))
    else t
  }

  lemma ServeExact(w: World, s: Router, c: Call, wid: string)
    requires Idle(s) && c.Serve?
    ensures IsRun(w, s, Steps(w, s, c)) && After(w, s, Steps(w, s, c)) == Served(w, s, c) && Idle(Served(w, s, c))
    ensures CalmRun(w, s, Steps(w, s, c), wid) <==> CalmCall(w, s, c, wid)
  {
    var es := ResolveSteps(w, s, 0, c.kind, c.wid);
    StepsRefineResolve(w, s, 0, c.kind, c.wid, map[]);
    PlainRunIsCalm(w, s, es, wid);
    var t, home := AfterResolve(w, s, 0, c.kind, c.wid), Resolution(w, s, c.wid);
    if home.Some? {
      SendExact(w, t, c.kind, c.wid, home.value, c.accepted, wid);
      CalmOne(w, t, Send(c.kind, c.accepted), wid);
      RunAppend(w, s, es, [Send(c.kind, c.accepted)], wid);
    } else {
      RunAppend(w, s, es, [], wid);
    }
  }

  lemma ManageExact(w: World, s: Router, c: Call, wid: string)
    requires Idle(s) && c.Manage? && Possible(w, s, c)
    ensures IsRun(w, s, Steps(w, s, c)) && Idle(After(w, s, Steps(w, s, c)))
    ensures CalmRun(w, s, Steps(w, s, c), wid) <==> CalmCall(w, s, c, wid)
  {
    ParseEmpty();
    CalmOne(w, s, c.admin, wid);
    assert Exposed(s, wid) <==> Cached(s, wid) == "";
    assert Cached(s, wid) == "" ==> forall home :: Recorded(s, wid, home) <==> (wid, home) in s.open;
  }

  lemma PollRuns(w: World, s: Router, c: Call)
    requires Idle(s) && c.Poll? && Possible(w, s, c)
    ensures IsRun(w, s, Steps(w, s, c))
    ensures After(w, s, Steps(w, s, c)) == s.(cache := s.cache[c.wid := c.slot])
  {
    var s' := s.(flights := map[0 := Polled(c.wid, c.slot)]);
    assert s'.flights - {0} == map[];
    RunOne(w, s', PollPut(0));
    RunCons(w, s, Handout(0, c.wid, c.slot), [PollPut(0)]);
    assert Steps(w, s, c) == [Handout(0, c.wid, c.slot)] + [PollPut(0)];
  }

  /** Every possible call runs to its end, and its steps are calm exactly if the call is. */
  lemma CallExact(w: World, s: Router, c: Call, wid: string)
    requires Idle(s) && Possible(w, s, c)
    ensures IsRun(w, s, Steps(w, s, c)) && Idle(After(w, s, Steps(w, s, c)))
    ensures CalmRun(w, s, Steps(w, s, c), wid) <==> CalmCall(w, s, c, wid)
  {
    match c
    case Serve(_, _, _) => ServeExact(w, s, c, wid);
    case Manage(_) => ManageExact(w, s, c, wid);
    case Poll(_, _) =>
      PollRuns(w, s, c);
      PlainRunIsCalm(w, s, Steps(w, s, c), wid);
    case End(x, home) => CalmOne(w, s, Expire(x, home), wid);
  }

  // ---------- sequences of calls ----------

  /** The calls can be made in this order, each running to its end before the next. */
  ghost predicate Serial(w: World, s: Router, calls: seq<Call>)
    decreases |calls|
  {
    calls == [] || (
      && Possible(w, s, calls[0])
      && IsRun(w, s, Steps(w, s, calls[0]))
      && Serial(w, After(w, s, Steps(w, s, calls[0])), calls[1..]))
  }

  ghost predicate CalmCalls(w: World, s: Router, calls: seq<Call>, wid: string)
    requires Serial(w, s, calls)
    decreases |calls|
  {
    calls == [] || (
      && CalmCall(w, s, calls[0], wid)
      && CalmCalls(w, After(w, s, Steps(w, s, calls[0])), calls[1..], wid))
  }

  /** A plain request for wid. */
  function Ask(wid: string): Call {
    Serve(Touch, wid, true)
  }

  /** No state during the calls is broken for wid, nor during a plain request for wid made before,
      between or after them. */
  ghost predicate AlwaysRouted(w: World, s: Router, calls: seq<Call>, wid: string)
    requires Idle(s) && Serial(w, s, calls)
    decreases |calls|
  {
    CallExact(w, s, Ask(wid), wid);
    && NeverBroken(w, s, Steps(w, s, Ask(wid)), wid)
    && (calls == [] || (
          CallExact(w, s, calls[0], wid);
          && NeverBroken(w, s, Steps(w, s, calls[0]), wid)
          && AlwaysRouted(w, After(w, s, Steps(w, s, calls[0])), calls[1..], wid)))
  }

  lemma AskMisroutes(w: World, s: Router, wid: string, home: Namespace, b: Namespace)
    requires Idle(s) && (wid, home) in s.open && b != home
    requires Cached(s, wid) == "" && Parse(Place(w, s, wid)) == Some(b)
    ensures IsRun(w, s, Steps(w, s, Ask(wid))) && !NeverBroken(w, s, Steps(w, s, Ask(wid)), wid)
  {
    CallExact(w, s, Ask(wid), wid);
    StepsRefineResolve(w, s, 0, Touch, wid, map[]);
    var t := AfterResolve(w, s, 0, Touch, wid);
    assert t.flights == map[0 := Routed(Touch, wid, b)];
    assert Enabled(w, t, Forward(0, true)) && Sends(t, Forward(0, true), wid, b);
    assert Misroutes(t, Forward(0, true), wid);
    BrokenOnTheWay(w, s, ResolveSteps(w, s, 0, Touch, wid), SendSteps(w, s, Touch, wid, true), wid);
  }

  /** After a call that is not calm, the next plain request for the workflow is misrouted. */
  lemma UncalmCallMisroutes(w: World, s: Router, c: Call, wid: string)
    requires Idle(s) && Possible(w, s, c) && !CalmCall(w, s, c, wid)
    ensures IsRun(w, s, Steps(w, s, c))
    ensures var t := After(w, s, Steps(w, s, c));
            IsRun(w, t, Steps(w, t, Ask(wid))) && !NeverBroken(w, t, Steps(w, t, Ask(wid)), wid)
  {
    CallExact(w, s, c, wid);
    var t := After(w, s, Steps(w, s, c));
    if c.Manage? {
      CalmOne(w, s, c.admin, wid);
      var home :| (wid, home) in s.open && Parse(Place(w, t, wid)) !in {None, Some(home)};
      AskMisroutes(w, t, wid, home, Parse(Place(w, t, wid)).value);
    } else {
      ServeExact(w, s, c, wid);
      AskMisroutes(w, t, wid, Resolution(w, s, wid).value, Parse(Place(w, s, wid)).value);
    }
  }

  /** Single home, exactly: whatever starts, requests, completions, polls, additions, removals and
      ends of executions happen, one after the other, the workflow stays on one home and every
      request for it reaches that home if and only if each call is calm for it. */
  lemma {:induction false} SerialExact(w: World, s: Router, calls: seq<Call>, wid: string)
    requires Idle(s) && Agreed(w, s, wid) && Serial(w, s, calls)
    ensures AlwaysRouted(w, s, calls, wid) <==> CalmCalls(w, s, calls, wid)
    decreases |calls|
  {
    CallExact(w, s, Ask(wid), wid);
    CalmRunsNeverBreak(w, s, Steps(w, s, Ask(wid)), wid);
    if calls != [] {
      var c, t := calls[0], After(w, s, Steps(w, s, calls[0]));
      CallExact(w, s, c, wid);
      if CalmCall(w, s, c, wid) {
        CalmRunsNeverBreak(w, s, Steps(w, s, c), wid);
        CalmRunsAreSafe(w, s, Steps(w, s, c), wid);
        SerialExact(w, t, calls[1..], wid);
      } else {
        UncalmCallMisroutes(w, s, c, wid);
      }
    }
  }

  /** Every call that is possible between calls can be carried out. */
  lemma SerialExtends(w: World, s: Router, c: Call)
    requires Idle(s) && Possible(w, s, c)
    ensures Serial(w, s, [c])
  {
    CallExact(w, s, c, "");
    assert [c][1..] == [];
  }

  // ---------- without rejected completions ----------

  /** No completion of wid is rejected by the home it is open on. */
  ghost predicate Accepting(w: World, s: Router, calls: seq<Call>, wid: string)
    requires Serial(w, s, calls)
    decreases |calls|
  {
    calls == [] || (
      && !Rejects(w, s, calls[0], wid)
      && Accepting(w, After(w, s, Steps(w, s, calls[0])), calls[1..], wid))
  }

  /** Wherever wid is open, its cache entry says so. */
  ghost predicate Kept(s: Router, wid: string) {
    forall home :: (wid, home) in s.open ==> Parse(Cached(s, wid)) == Some(home)
  }

  lemma KeptIsAgreed(w: World, s: Router, wid: string)
    requires Idle(s) && Kept(s, wid)
    ensures Agreed(w, s, wid)
  {
    ParseEmpty();
  }

  lemma ResolveKeeps(w: World, s: Router, kind: Kind, x: string, wid: string)
    requires Idle(s) && Kept(s, wid)
    ensures Kept(AfterResolve(w, s, 0, kind, x), wid)
    ensures Resolution(w, s, x).Some? ==> Parse(Cached(AfterResolve(w, s, 0, kind, x), x)) == Resolution(w, s, x)
  {
    ParseEmpty();
  }

  lemma SendKeeps(w: World, s: Router, kind: Kind, x: string, home: Namespace, accepted: bool, wid: string)
    requires s.flights == map[0 := Routed(kind, x, home)] && Kept(s, wid) && Parse(Cached(s, x)) == Some(home)
    requires kind == Complete && x == wid && (wid, home) in s.open ==> accepted
    ensures Kept(Step(w, s, Send(kind, accepted)), wid)
  {
  }

  lemma ServeKeeps(w: World, s: Router, c: Call, wid: string)
    requires Idle(s) && c.Serve? && Kept(s, wid) && !Rejects(w, s, c, wid)
    ensures Kept(Served(w, s, c), wid)
  {
    ResolveKeeps(w, s, c.kind, c.wid, wid);
    var t, home := AfterResolve(w, s, 0, c.kind, c.wid), Resolution(w, s, c.wid);
    if home.Some? {
      assert t.flights == map[0 := Routed(c.kind, c.wid, home.value)];
      SendKeeps(w, t, c.kind, c.wid, home.value, c.accepted, wid);
    }
  }

  lemma CallKeeps(w: World, s: Router, c: Call, wid: string)
    requires Idle(s) && Possible(w, s, c) && Kept(s, wid) && !Rejects(w, s, c, wid)
    ensures CalmCall(w, s, c, wid)
    ensures IsRun(w, s, Steps(w, s, c)) && Kept(After(w, s, Steps(w, s, c)), wid)
  {
    ParseEmpty();
    match c
    case Serve(_, _, _) =>
      ServeExact(w, s, c, wid);
      ServeKeeps(w, s, c, wid);
    case Poll(x, slot) =>
      PollRuns(w, s, c);
      assert x == wid ==> (wid, Parse(slot).value) in s.open;
    case Manage(e) => CalmOne(w, s, e, wid);
    case End(x, home) => CalmOne(w, s, Expire(x, home), wid);
  }

  /** Then nothing else is needed: whatever is added and removed, every call is calm. */
  lemma {:induction false} AcceptingCallsAreCalm(w: World, s: Router, calls: seq<Call>, wid: string)
    requires Idle(s) && Kept(s, wid) && Serial(w, s, calls) && Accepting(w, s, calls, wid)
    ensures CalmCalls(w, s, calls, wid)
    decreases |calls|
  {
    if calls != [] {
      CallExact(w, s, calls[0], wid);
      CallKeeps(w, s, calls[0], wid);
      AcceptingCallsAreCalm(w, After(w, s, Steps(w, s, calls[0])), calls[1..], wid);
    }
  }

  lemma SerialCallsKeepOneHome(w: World, s: Router, calls: seq<Call>, wid: string)
    requires Idle(s) && Kept(s, wid) && Serial(w, s, calls) && Accepting(w, s, calls, wid)
    ensures AlwaysRouted(w, s, calls, wid)
  {
    KeptIsAgreed(w, s, wid);
    AcceptingCallsAreCalm(w, s, calls, wid);
    SerialExact(w, s, calls, wid);
  }
}
