/**
  Every interleaving of a fanned-out poll: the goroutines, the buffered channel, the closer and
  the consumer, as a state machine.
 */
module FanOutRuns {
  import opened Options
  import opened FanOut

  /**
    `pending` goroutines have not sent yet and `unreported` ones have sent but not called Done.
    `sent` is everything ever sent with its sender, in channel order; the first `received` of it
    has been received, the rest is in the channel.
   */
  datatype Fan = Fan(
    pending: set<nat>,
    unreported: set<nat>,
    sent: seq<(nat, PollResult)>,
    received: nat,
    closed: bool,
    consumer: Consumer)

  datatype Step = Send(i: nat, result: PollResult) | Done(i: nat) | Close | Receive | Finish

  function Upto(n: nat): (r: set<nat>)
    ensures forall i: nat :: i in r <==> i < n
    ensures |r| == n
  {
    if n == 0 then {} else Upto(n - 1) + {n - 1}
  }

  function Launched(slots: seq<string>): Fan {
    Fan(Upto(|slots|), {}, [], 0, false, START)
  }

  function InChannel(f: Fan): int {
    |f.sent| - f.received
  }

  function Results(sent: seq<(nat, PollResult)>): (rs: seq<PollResult>)
    ensures |rs| == |sent|
  {
    seq(|sent|, i requires 0 <= i < |sent| => sent[i].1)
  }

  /** A send blocks while the channel is full, and panics once it is closed. */
  predicate Enabled(slots: seq<string>, f: Fan, a: Step) {
    match a
    case Send(i, r) => i in f.pending && i < |slots| && r.physNs == slots[i] && InChannel(f) < |slots| && !f.closed
    case Done(i) => i in f.unreported
    case Close => !f.closed && f.pending == {} && f.unreported == {}
    case Receive => f.consumer.Running? && f.received < |f.sent|
    case Finish => f.consumer.Running? && f.received == |f.sent| && f.closed
  }

  function Next(c: Codec, slots: seq<string>, f: Fan, a: Step): Fan
    requires Enabled(slots, f, a)
  {
    match a
    case Send(i, r) => f.(pending := f.pending - {i}, unreported := f.unreported + {i}, sent := f.sent + [(i, r)])
    case Done(i) => f.(unreported := f.unreported - {i})
    case Close => f.(closed := true)
    case Receive => f.(received := f.received + 1, consumer := FanOut.Take(c, f.consumer, f.sent[f.received].1))
    case Finish => f.(consumer := Returned(Exhaust(f.consumer)))
  }

  // ---------- the invariant ----------

  /** Each goroutine is either pending or has sent exactly once, under its own namespace. */
  ghost predicate Accounted(slots: seq<string>, f: Fan) {
    && f.pending <= Upto(|slots|) && f.unreported <= Upto(|slots|)
    && (forall k :: 0 <= k < |f.sent| ==>
          f.sent[k].0 < |slots| && f.sent[k].0 !in f.pending && f.sent[k].1.physNs == slots[f.sent[k].0])
    && (forall j, k :: 0 <= j < k < |f.sent| ==> f.sent[j].0 != f.sent[k].0)
    && |f.pending| + |f.sent| == |slots|
    && f.received <= |f.sent|
    && (f.closed ==> f.pending == {} && f.unreported == {})
  }

  /** The consumer has done what the received results call for, and once it has returned, its
      answer is the one for all results, sent or still to come. */
  ghost predicate Faithful(c: Codec, f: Fan)
    requires f.received <= |f.sent|
  {
    var got := Results(f.sent)[..f.received];
    if f.consumer.Running? then f.consumer == Consumed(c, got)
    else f.consumer.outcome == Answer(c, Results(f.sent)) && (HasTask(c, got) || (f.closed && f.received == |f.sent|))
  }

  ghost predicate Inv(c: Codec, slots: seq<string>, f: Fan) {
    Accounted(slots, f) && Faithful(c, f)
  }

  lemma LaunchedInv(c: Codec, slots: seq<string>)
    ensures Inv(c, slots, Launched(slots))
  {
  }

  lemma SendKeepsAccounts(slots: seq<string>, c: Codec, f: Fan, a: Step)
    requires Accounted(slots, f) && Enabled(slots, f, a)
    ensures Accounted(slots, Next(c, slots, f, a))
  {
  }

  lemma ResultsPrefix(sent: seq<(nat, PollResult)>, x: (nat, PollResult), n: nat)
    requires n <= |sent|
    ensures Results(sent + [x])[..n] == Results(sent)[..n]
    ensures Results(sent + [x]) == Results(sent) + [x.1]
  {
  }

  lemma PrefixTask(c: Codec, rs: seq<PollResult>, n: nat)
    requires n <= |rs| && HasTask(c, rs[..n])
    ensures HasTask(c, rs) && Consumed(c, rs) == Consumed(c, rs[..n])
  {
    LateResults(c, rs[..n], rs[n..]);
    assert rs[..n] + rs[n..] == rs;
    var i :| 0 <= i < n && TaskIn(c, rs[..n][i]).Some?;
    assert rs[i] == rs[..n][i];
  }

  lemma SendKeepsFaith(c: Codec, slots: seq<string>, f: Fan, a: Step)
    requires Inv(c, slots, f) && Enabled(slots, f, a) && a.Send?
    ensures Faithful(c, Next(c, slots, f, a))
  {
    ResultsPrefix(f.sent, (a.i, a.result), f.received);
    if f.consumer.Returned? {
      var rs := Results(f.sent);
      PrefixTask(c, rs, f.received);
      LateResults(c, rs, [a.result]);
    }
  }

  lemma ReceiveKeepsFaith(c: Codec, slots: seq<string>, f: Fan)
    requires Inv(c, slots, f) && Enabled(slots, f, Receive)
    ensures Faithful(c, Next(c, slots, f, Receive))
  {
    var rs, n := Results(f.sent), f.received;
    var got := rs[..n + 1];
    assert got[..n] == rs[..n] && got[n] == f.sent[n].1;
    AnswerIsPromised(c, got);
    if Consumed(c, got).Returned? { PrefixTask(c, rs, n + 1); }
  }

  lemma InvStep(c: Codec, slots: seq<string>, f: Fan, a: Step)
    requires Inv(c, slots, f) && Enabled(slots, f, a)
    ensures Inv(c, slots, Next(c, slots, f, a))
  {
    SendKeepsAccounts(slots, c, f, a);
    match a
    case Send(_, _) => SendKeepsFaith(c, slots, f, a);
    case Receive => ReceiveKeepsFaith(c, slots, f);
    case Finish => assert Results(f.sent)[..f.received] == Results(f.sent);
    case _ =>
  }

  // ---------- every run ----------

  predicate IsRun(c: Codec, slots: seq<string>, f: Fan, run: seq<Step>)
    decreases |run|
  {
    run == [] || (Enabled(slots, f, run[0]) && IsRun(c, slots, Next(c, slots, f, run[0]), run[1..]))
  }

  function After(c: Codec, slots: seq<string>, f: Fan, run: seq<Step>): Fan
    requires IsRun(c, slots, f, run)
    decreases |run|
  {
    if run == [] then f else After(c, slots, Next(c, slots, f, run[0]), run[1..])
  }

  /** Steps left at most: three per goroutine that has not sent, and so on down. */
  function Remaining(f: Fan): int {
    3 * |f.pending| + |f.unreported| + InChannel(f) +
    (if f.closed then 0 else 1) + (if f.consumer.Running? then 1 else 0)
  }

  lemma StepCounts(c: Codec, slots: seq<string>, f: Fan, a: Step)
    requires Inv(c, slots, f) && Enabled(slots, f, a)
    ensures 0 <= Remaining(Next(c, slots, f, a)) < Remaining(f)
  {
    InvStep(c, slots, f, a);
  }

  lemma {:induction false} RunInv(c: Codec, slots: seq<string>, f: Fan, run: seq<Step>)
    requires Inv(c, slots, f) && IsRun(c, slots, f, run)
    ensures Inv(c, slots, After(c, slots, f, run))
    ensures |run| + Remaining(After(c, slots, f, run)) <= Remaining(f)
    decreases |run|
  {
    if run != [] {
      InvStep(c, slots, f, run[0]);
      StepCounts(c, slots, f, run[0]);
      RunInv(c, slots, Next(c, slots, f, run[0]), run[1..]);
    }
  }

  /** In every interleaving: nothing is lost, no goroutine that still has to send meets a full or a
      closed channel, even after an early return, and the whole poll ends within 3N + 2 steps. */
  lemma FanOutIsSafe(c: Codec, slots: seq<string>, run: seq<Step>)
    requires IsRun(c, slots, Launched(slots), run)
    ensures var f := After(c, slots, Launched(slots), run);
            && |f.pending| + InChannel(f) + f.received == |slots|
            && (forall i :: i in f.pending ==> i < |slots| && InChannel(f) < |slots| && !f.closed)
            && |run| <= 3 * |slots| + 2
  {
    LaunchedInv(c, slots);
    RunInv(c, slots, Launched(slots), run);
    var f := After(c, slots, Launched(slots), run);
    if f.pending != {} {
      var i :| i in f.pending;
      assert |f.pending| > 0;
    }
  }

  /** Each goroutine that is no longer pending has sent, and unless it is unreported, also called Done. */
  ghost predicate Logged(slots: seq<string>, f: Fan, past: seq<Step>) {
    && (forall i: nat :: i < |slots| && i !in f.pending ==> exists r :: Send(i, r) in past)
    && (forall i: nat :: i < |slots| && i !in f.pending && i !in f.unreported ==> Done(i) in past)
  }

  lemma LoggedStep(c: Codec, slots: seq<string>, f: Fan, past: seq<Step>, a: Step)
    requires Logged(slots, f, past) && Enabled(slots, f, a)
    ensures Logged(slots, Next(c, slots, f, a), past + [a])
  {
    var f' := Next(c, slots, f, a);
    forall i: nat | i < |slots| && i !in f'.pending ensures exists r :: Send(i, r) in past + [a] {
      if i in f.pending {
        assert Send(i, a.result) in past + [a];
      } else {
        var r :| Send(i, r) in past;
        assert Send(i, r) in past + [a];
      }
    }
  }

  lemma {:induction false} LoggedRun(c: Codec, slots: seq<string>, f: Fan, past: seq<Step>, run: seq<Step>)
    requires Logged(slots, f, past) && IsRun(c, slots, f, run)
    ensures Logged(slots, After(c, slots, f, run), past + run)
    decreases |run|
  {
    if run == [] {
      assert past + run == past;
    } else {
      LoggedStep(c, slots, f, past, run[0]);
      LoggedRun(c, slots, Next(c, slots, f, run[0]), past + [run[0]], run[1..]);
      assert past + [run[0]] + run[1..] == past + run;
    }
  }

  /** The channel is closed only after every goroutine has sent its result and called Done. */
  lemma ClosedAfterAll(c: Codec, slots: seq<string>, run: seq<Step>, i: nat)
    requires IsRun(c, slots, Launched(slots), run) && After(c, slots, Launched(slots), run).closed && i < |slots|
    ensures Done(i) in run && exists r :: Send(i, r) in run
  {
    LaunchedInv(c, slots);
    RunInv(c, slots, Launched(slots), run);
    LoggedRun(c, slots, Launched(slots), [], run);
    assert [] + run == run;
  }

  /** While the consumer waits some step is possible, and a goroutine that has not sent always can. */
  lemma NoDeadlock(c: Codec, slots: seq<string>, run: seq<Step>, reply: Reply)
    requires IsRun(c, slots, Launched(slots), run)
    ensures var f := After(c, slots, Launched(slots), run);
            && (f.consumer.Running? ==> exists a :: Enabled(slots, f, a))
            && (forall i :: i in f.pending ==> i < |slots| && Enabled(slots, f, Send(i, PollResult(slots[i], reply))))
  {
    FanOutIsSafe(c, slots, run);
    var f := After(c, slots, Launched(slots), run);
    if f.pending != {} {
      var i :| i in f.pending;
      assert Enabled(slots, f, Send(i, PollResult(slots[i], reply)));
    } else if f.unreported != {} {
      var i :| i in f.unreported;
      assert Enabled(slots, f, Done(i));
    } else if !f.closed {
      assert Enabled(slots, f, Close);
    } else if f.consumer.Running? {
      LaunchedInv(c, slots);
      RunInv(c, slots, Launched(slots), run);
      assert Enabled(slots, f, if f.received < |f.sent| then Receive else Finish);
    }
  }

  /** Whatever the interleaving, a returned poll has given the promised answer to the results in
      the order they were sent, also for results that arrive later; a poll that returns without
      a task has heard from every namespace. */
  lemma FanOutAnswer(c: Codec, slots: seq<string>, run: seq<Step>)
    requires IsRun(c, slots, Launched(slots), run)
    requires After(c, slots, Launched(slots), run).consumer.Returned?
    ensures var f := After(c, slots, Launched(slots), run);
            && Promised(c, Results(f.sent), f.consumer.outcome)
            && (f.consumer.outcome.Tasked? <==> HasTask(c, Results(f.sent)))
            && (f.consumer.outcome.Tasked? || f.received == |f.sent| == |slots|)
  {
    LaunchedInv(c, slots);
    RunInv(c, slots, Launched(slots), run);
    var f := After(c, slots, Launched(slots), run);
    AnswerIsPromised(c, Results(f.sent));
    if HasTask(c, Results(f.sent)[..f.received]) {
      PrefixTask(c, Results(f.sent), f.received);
    }
  }

  /** A returned task is one of the results and came from a polled namespace. */
  lemma TaskWasPolled(c: Codec, slots: seq<string>, run: seq<Step>)
    requires IsRun(c, slots, Launched(slots), run)
    requires After(c, slots, Launched(slots), run).consumer.Returned?
    ensures var f := After(c, slots, Launched(slots), run);
            var o := f.consumer.outcome;
            o.Tasked? ==> TaskIn(c, o.result).Some? && o.result in Results(f.sent) && o.result.physNs in slots
  {
    LaunchedInv(c, slots);
    RunInv(c, slots, Launched(slots), run);
    FanOutAnswer(c, slots, run);
    var f := After(c, slots, Launched(slots), run);
    var o := f.consumer.outcome;
    if o.Tasked? {
      var rs := Results(f.sent);
      var i :| 0 <= i < |rs| && rs[i] == o.result;
      assert f.sent[i].1 == o.result && slots[f.sent[i].0] == o.result.physNs;
    }
  }

  /** The poll writes the cache at the returned task's workflow id, if it has one, and nowhere else:
      to a namespace that was polled and that supplied the task. */
  lemma FanOutWrite(c: Codec, slots: seq<string>, run: seq<Step>, cache: map<string, string>, wid: string)
    requires IsRun(c, slots, Launched(slots), run)
    requires After(c, slots, Launched(slots), run).consumer.Returned?
    ensures var f := After(c, slots, Launched(slots), run);
            var o := f.consumer.outcome;
            var cache' := Written(c, cache, o);
            if wid != "" && o.Tasked? && exists t :: TaskIn(c, o.result) == Some(t) && t.wid == wid then
              && wid in cache' && cache'[wid] == o.result.physNs
              && o.result.physNs in slots && o.result in Results(f.sent)
            else
              (wid in cache' <==> wid in cache) && (wid in cache ==> cache'[wid] == cache[wid])
  {
    TaskWasPolled(c, slots, run);
  }
}
