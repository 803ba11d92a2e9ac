/** What a fanned-out poll does to the router: a handout followed by a write, or nothing. */
module PollSteps {
  import opened Options
  import opened PhysicalNames
  import FanOut
  import FanOutRuns
  import opened Routing
  import opened RoutingRuns

  /** Every task among the replies is one of an execution that is open where it came from. */
  ghost predicate FromOpen(w: World, s: Router, v: string, c: FanOut.Codec, rs: seq<FanOut.PollResult>) {
    forall r :: r in rs && FanOut.TaskIn(c, r).Some? && FanOut.TaskIn(c, r).value.wid != "" ==>
      var wid := FanOut.TaskIn(c, r).value.wid;
      w.vnsOf(wid) == v && Parse(r.physNs).Some? && (wid, Parse(r.physNs).value) in s.open
  }

  /** The steps of the router for an answer to a poll. */
  function StepsOf(c: FanOut.Codec, o: FanOut.Outcome, id: nat): seq<Event> {
    if o.Tasked? && FanOut.TaskIn(c, o.result).Some? && FanOut.TaskIn(c, o.result).value.wid != "" then
      [Handout(id, FanOut.TaskIn(c, o.result).value.wid, o.result.physNs), PollPut(id)]
    else []
  }

  lemma HandoutThenPut(w: World, s: Router, id: nat, wid: string, slot: string)
    requires Enabled(w, s, Handout(id, wid, slot))
    ensures var es := [Handout(id, wid, slot), PollPut(id)];
            IsRun(w, s, es) && After(w, s, es) == s.(cache := s.cache[wid := slot])
  {
    var s' := s.(flights := s.flights[id := Polled(wid, slot)]);
    assert s'.flights - {id} == s.flights;
    RunOne(w, s', PollPut(id));
    RunCons(w, s, Handout(id, wid, slot), [PollPut(id)]);
    assert [Handout(id, wid, slot), PollPut(id)] == [Handout(id, wid, slot)] + [PollPut(id)];
  }

  /** In every interleaving of a poll over listed namespaces of v, the cache write of the answer is
      that of a handout by the namespace that supplied the task and the write after it. */
  lemma PollIsHandout(w: World, s: Router, v: string, c: FanOut.Codec, slots: seq<string>,
                      run: seq<FanOutRuns.Step>, id: nat)
    requires FanOutRuns.IsRun(c, slots, FanOutRuns.Launched(slots), run) && id !in s.flights
    requires v in s.registry && forall slot :: slot in slots ==> slot in s.registry[v].statuses
    requires var f := FanOutRuns.After(c, slots, FanOutRuns.Launched(slots), run);
             f.consumer.Returned? && FromOpen(w, s, v, c, FanOutRuns.Results(f.sent))
    ensures var o := FanOutRuns.After(c, slots, FanOutRuns.Launched(slots), run).consumer.outcome;
            && IsRun(w, s, StepsOf(c, o, id))
            && After(w, s, StepsOf(c, o, id)) == s.(cache := FanOut.Written(c, s.cache, o))
  {
    FanOutRuns.TaskWasPolled(c, slots, run);
    var o := FanOutRuns.After(c, slots, FanOutRuns.Launched(slots), run).consumer.outcome;
    if StepsOf(c, o, id) != [] {
      HandoutThenPut(w, s, id, FanOut.TaskIn(c, o.result).value.wid, o.result.physNs);
    }
  }
}
