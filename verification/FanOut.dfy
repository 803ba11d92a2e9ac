/**
  A poll fanned out to every physical namespace: one goroutine per namespace, a channel with room
  for all of them, a closer that waits for all, and a consumer that may return early.
 */
module FanOut {
  import opened Varints
  import opened Options
  import opened Frames

  // ---------- replies ----------

  datatype Reply =
    | NoResponse(error: string)
    | Unreadable(error: string)
    | Response(status: int, body: seq<Byte>)

  datatype PollResult = PollResult(physNs: string, reply: Reply)

  /** A decoded poll response; wid is empty when it names no execution. */
  datatype Task = Task(token: seq<Byte>, wid: string)

  /** The libraries that decode a reply; None is their error. */
  datatype Codec = Codec(gunzip: seq<Byte> -> Option<seq<Byte>>, decode: seq<Byte> -> Option<Task>)

  function Inflate(c: Codec, body: seq<Byte>): seq<Byte>
    requires |body| > 5
  {
    if body[0] == 1 && c.gunzip(body[5..]).Some? then c.gunzip(body[5..]).value else body[5..]
  }

  /** The task a reply carries, if any: a long enough 200 response with a non-empty task token. */
  function TaskIn(c: Codec, r: PollResult): Option<Task> {
    if r.reply.Response? && |r.reply.body| > 5 && r.reply.status == 200 then
      match c.decode(Inflate(c, r.reply.body))
      case None => None
      case Some(t) => if t.token != [] then Some(t) else None
    else None
  }

  ghost predicate WrapsAs(c: Codec, body: seq<Byte>, flag: Byte, length: seq<Byte>, z: seq<Byte>, p: seq<Byte>) {
    && body == [flag] + length + z && |length| == 4 && z != []
    && if flag == 1 && c.gunzip(z).Some? then c.gunzip(z) == Some(p) else z == p
  }

  /** What the five-byte header of a reply wraps: the bytes after it, inflated if the flag is 1 and
      gzip can read them. */
  ghost predicate Wraps(c: Codec, body: seq<Byte>, p: seq<Byte>) {
    exists flag, length, z :: WrapsAs(c, body, flag, length, z, p)
  }

  /** A reply carries a task exactly if it is a 200 response that wraps the encoding of a task with
      a non-empty token. */
  lemma TaskInExact(c: Codec, r: PollResult, t: Task)
    ensures TaskIn(c, r) == Some(t) <==>
            && r.reply.Response? && r.reply.status == 200 && t.token != []
            && exists p :: Wraps(c, r.reply.body, p) && c.decode(p) == Some(t)
  {
    if r.reply.Response? {
      var body := r.reply.body;
      if |body| > 5 {
        WrapsInflated(c, body);
        forall p | Wraps(c, body, p) ensures p == Inflate(c, body) { WrapsOnly(c, body, p); }
      } else {
        forall p ensures !Wraps(c, body, p) {}
      }
    }
  }

  lemma WrapsInflated(c: Codec, body: seq<Byte>)
    requires |body| > 5
    ensures Wraps(c, body, Inflate(c, body))
  {
    assert WrapsAs(c, body, body[0], body[1..5], body[5..], Inflate(c, body));
  }

  lemma WrapsOnly(c: Codec, body: seq<Byte>, p: seq<Byte>)
    requires Wraps(c, body, p)
    ensures |body| > 5 && p == Inflate(c, body)
  {
    var flag, length, z :| WrapsAs(c, body, flag, length, z, p);
    assert body[5..] == z;
  }

  /** Hence a namespace that frames a task with a non-empty token in a 200 response delivers it. */
  lemma FramedTaskArrives(c: Codec, physNs: string, p: seq<Byte>, t: Task)
    requires p != [] && c.decode(p) == Some(t) && t.token != []
    ensures TaskIn(c, PollResult(physNs, Response(200, Frame(p)))) == Some(t)
  {
    var body: seq<Byte> := Frame(p);
    assert WrapsAs(c, body, 0, body[1..5], p, p);
    TaskInExact(c, PollResult(physNs, Response(200, body)), t);
  }

  /** So does one that compresses it, and one whose flag is 1 although gzip cannot read the rest. */
  lemma CompressedTaskArrives(c: Codec, physNs: string, length: seq<Byte>, z: seq<Byte>, t: Task)
    requires |length| == 4 && z != [] && t.token != []
    requires c.decode(if c.gunzip(z).Some? then c.gunzip(z).value else z) == Some(t)
    ensures TaskIn(c, PollResult(physNs, Response(200, [1] + length + z))) == Some(t)
  {
    var body: seq<Byte>, p := [1] + length + z, if c.gunzip(z).Some? then c.gunzip(z).value else z;
    assert WrapsAs(c, body, 1, length, z, p);
    TaskInExact(c, PollResult(physNs, Response(200, body)), t);
  }

  predicate IsError(r: PollResult) {
    !r.reply.Response?
  }

  // ---------- the consumer ----------

  datatype Outcome =
    | Tasked(result: PollResult)
    | Emptied(result: PollResult)
    | Errored(lastErr: Option<string>)

  datatype Consumer = Running(lastEmpty: Option<PollResult>, lastErr: Option<string>) | Returned(outcome: Outcome)

  const START := Running(None, None)

  function Take(c: Codec, k: Consumer, r: PollResult): Consumer
    requires k.Running?
  {
    if IsError(r) then Running(k.lastEmpty, Some(r.reply.error))
    else if TaskIn(c, r).Some? then Returned(Tasked(r))
    else Running(Some(r), k.lastErr)
  }

  function Exhaust(k: Consumer): Outcome
    requires k.Running?
  {
    if k.lastEmpty.Some? then Emptied(k.lastEmpty.value) else Errored(k.lastErr)
  }

  /** The consumer after the given arrivals; it stops at the first task. */
  function Consumed(c: Codec, rs: seq<PollResult>): Consumer {
    if rs == [] then START else
      var k := Consumed(c, rs[..|rs| - 1]);
      if k.Returned? then k else Take(c, k, rs[|rs| - 1])
  }

  /** The answer to the poll if these are all the arrivals. */
  function Answer(c: Codec, rs: seq<PollResult>): Outcome {
    var k := Consumed(c, rs);
    if k.Returned? then k.outcome else Exhaust(k)
  }

  ghost predicate HasTask(c: Codec, rs: seq<PollResult>) {
    exists i :: 0 <= i < |rs| && TaskIn(c, rs[i]).Some?
  }

  /** What the poll promises about its answer, in terms of the arrivals alone. */
  ghost predicate Promised(c: Codec, rs: seq<PollResult>, o: Outcome) {
    match o
    case Tasked(r) =>
      exists i :: 0 <= i < |rs| && rs[i] == r && TaskIn(c, r).Some? &&
                  forall j :: 0 <= j < i ==> TaskIn(c, rs[j]).None?
    case Emptied(r) =>
      && !HasTask(c, rs)
      && exists i :: 0 <= i < |rs| && rs[i] == r && !IsError(r) && forall j :: i < j < |rs| ==> IsError(rs[j])
    case Errored(e) =>
      && (forall i :: 0 <= i < |rs| ==> IsError(rs[i]))
      && e == if rs == [] then None else Some(rs[|rs| - 1].reply.error)
  }

  lemma {:induction false} AnswerIsPromised(c: Codec, rs: seq<PollResult>)
    ensures Promised(c, rs, Answer(c, rs))
    ensures Consumed(c, rs).Returned? <==> HasTask(c, rs)
    ensures Consumed(c, rs).Returned? ==> Consumed(c, rs).outcome.Tasked?
  {
    if rs != [] {
      var before, r := rs[..|rs| - 1], rs[|rs| - 1];
      AnswerIsPromised(c, before);
      assert forall i :: 0 <= i < |before| ==> before[i] == rs[i];
      if !HasTask(c, before) && TaskIn(c, r).Some? {
        assert rs[|rs| - 1] == r;
      } else if HasTask(c, before) {
        var i :| 0 <= i < |before| && TaskIn(c, before[i]).Some?;
        assert TaskIn(c, rs[i]).Some?;
      } else if IsError(r) && Answer(c, before).Emptied? {
        assert Answer(c, rs) == Answer(c, before);
      }
    }
  }

  /** Results that arrive after a task change nothing. */
  lemma {:induction false} LateResults(c: Codec, rs: seq<PollResult>, more: seq<PollResult>)
    requires HasTask(c, rs)
    ensures Consumed(c, rs + more) == Consumed(c, rs)
    decreases |more|
  {
    AnswerIsPromised(c, rs);
    if more == [] {
      assert rs + more == rs;
    } else {
      LateResults(c, rs, more[..|more| - 1]);
      assert (rs + more)[..|rs + more| - 1] == rs + more[..|more| - 1];
    }
  }

  datatype Kind = GotTask | GotEmpty | GotError

  function KindOf(o: Outcome): Kind {
    match o
    case Tasked(_) => GotTask
    case Emptied(_) => GotEmpty
    case Errored(_) => GotError
  }

  lemma KindFromMembers(c: Codec, rs: seq<PollResult>)
    ensures KindOf(Answer(c, rs)) == GotTask <==> exists r :: r in multiset(rs) && TaskIn(c, r).Some?
    ensures KindOf(Answer(c, rs)) == GotError <==> forall r :: r in multiset(rs) ==> IsError(r)
  {
    AnswerIsPromised(c, rs);
    forall r ensures r in multiset(rs) <==> r in rs {}
    assert forall i :: 0 <= i < |rs| ==> rs[i] in multiset(rs);
  }

  /** The kind of answer depends on which results there are, not on the order they arrive in. */
  lemma KindIgnoresOrder(c: Codec, rs: seq<PollResult>, other: seq<PollResult>)
    requires multiset(rs) == multiset(other)
    ensures KindOf(Answer(c, rs)) == KindOf(Answer(c, other))
  {
    KindFromMembers(c, rs);
    KindFromMembers(c, other);
  }

  /** The cache after the poll: a returned task is recorded at the namespace that supplied it. */
  function Written(c: Codec, cache: map<string, string>, o: Outcome): map<string, string> {
    if o.Tasked? && TaskIn(c, o.result).Some? && TaskIn(c, o.result).value.wid != ""
    then cache[TaskIn(c, o.result).value.wid := o.result.physNs] else cache
  }

  /** The receiving loop over the arrivals of one poll, in channel order. */
  method ReceiveAll(c: Codec, arrivals: seq<PollResult>, cache: map<string, string>)
    returns (outcome: Outcome, newCache: map<string, string>)
    ensures outcome == Answer(c, arrivals)
    ensures newCache == Written(c, cache, outcome)
  {
    newCache := cache;
    var lastEmptyResp: Option<PollResult>, lastErr: Option<string> := None, None;
    var i := 0;
    while i < |arrivals|
      invariant 0 <= i <= |arrivals|
      invariant Consumed(c, arrivals[..i]) == Running(lastEmptyResp, lastErr)
      invariant newCache == cache
    {
      var res := arrivals[i];
      assert arrivals[..i + 1][..i] == arrivals[..i];
      i := i + 1;
      if !res.reply.Response? {
        lastErr := Some(res.reply.error);
        continue;
      }
      var task := TaskIn(c, res);
      if task.Some? {
        if task.value.wid != "" {
          newCache := newCache[task.value.wid := res.physNs];
        }
        assert TaskIn(c, arrivals[..i][i - 1]).Some?;
        LateResults(c, arrivals[..i], arrivals[i..]);
        assert arrivals[..i] + arrivals[i..] == arrivals;
        return Tasked(res), newCache;
      }
      lastEmptyResp := Some(res);
    }
    assert arrivals[..i] == arrivals;
    outcome := if lastEmptyResp.Some? then Emptied(lastEmptyResp.value) else Errored(lastErr);
  }
}
