/** Receive queues of a whole cluster: every worker polls, re-posts RECVs lazily, and only
    then answers. A message that arrives must always find a posted RECV. */
module RecvBound {

  const RQ_DEPTH: nat := 2048
  const MAX_MSG_CORO: nat := 16
  const MIN_RECV_SLACK: nat := 32

  /** machines workers, one per machine, with coros coroutines each; coroutine 0 is the master. */
  datatype Config = Config(machines: nat, coros: nat)

  /** required_recvs(): responses to our own requests, and requests from all machines. */
  function RequiredRecvs(cfg: Config): nat
    requires cfg.coros > 0
  {
    (cfg.coros - 1) * MAX_MSG_CORO + cfg.machines * (cfg.coros - 1)
  }

  function RecvSlack(cfg: Config): int
    requires cfg.coros > 0
  {
    var slack := RQ_DEPTH - RequiredRecvs(cfg) - 1;
    if slack >= MIN_RECV_SLACK then MIN_RECV_SLACK else slack
  }

  /** The constructor's checks. */
  predicate Accepted(cfg: Config) {
    cfg.coros > 0 && RequiredRecvs(cfg) <= RQ_DEPTH && RecvSlack(cfg) >= MIN_RECV_SLACK
  }

  /** The one coalesced exchange between coroutine c of machine m and server mn. */
  datatype Key = Key(m: nat, c: nat, mn: nat)

  /** A request in flight or waiting in the server's receive queue; polled there but not yet
      answered; a response in flight or waiting; polled in the poll that is still going on. */
  datatype Leg = ReqFlight | ReqPolled | RespFlight | RespPolled

  /** Where the worker's poll_comps stands. */
  datatype Phase = Idle | Polled | Reposted

  /** `unposted` counts RECVs consumed and polled, but not posted again. */
  datatype Worker = Worker(phase: Phase, unposted: nat)

  datatype Cluster = Cluster(legs: map<Key, Leg>, workers: seq<Worker>)

  datatype Step =
    | SendReqs(m: nat, c: nat, servers: set<nat>)
    | Poll(d: nat, got: set<Key>)
    | Repost(d: nat)
    | SendResps(d: nat)

  /** Messages that will consume, or have consumed, a RECV of machine d and are not polled. */
  ghost function Inbound(legs: map<Key, Leg>, d: nat): set<Key> {
    set k | k in legs && ((k.mn == d && legs[k].ReqFlight?) || (k.m == d && legs[k].RespFlight?))
  }

  /** Messages machine d polled in its current poll. */
  ghost function PolledBy(legs: map<Key, Leg>, d: nat): set<Key> {
    set k | k in legs && ((k.mn == d && legs[k].ReqPolled?) || (k.m == d && legs[k].RespPolled?))
  }

  ghost function Exchanges(legs: map<Key, Leg>, m: nat, c: nat): set<Key> {
    set k | k in legs && k.m == m && k.c == c
  }

  ghost predicate Enabled(cfg: Config, s: Cluster, st: Step)
    requires |s.workers| == cfg.machines
  {
    match st
    case SendReqs(m, c, servers) =>
      // a slave coroutine runs between polls, and only when all its responses are in
      && m < cfg.machines && 1 <= c < cfg.coros && s.workers[m].phase.Idle?
      && Exchanges(s.legs, m, c) == {}
      && 0 < |servers| <= MAX_MSG_CORO && (forall mn :: mn in servers ==> mn < cfg.machines)
    case Poll(d, got) =>
      d < cfg.machines && s.workers[d].phase.Idle? && got != {} && got <= Inbound(s.legs, d)
    case Repost(d) =>
      d < cfg.machines && s.workers[d].phase.Polled?
    case SendResps(d) =>
      d < cfg.machines && s.workers[d].phase.Reposted?
  }

  function Started(m: nat, c: nat, servers: set<nat>): map<Key, Leg> {
    map mn | mn in servers :: Key(m, c, mn) := ReqFlight
  }

  function AfterPoll(legs: map<Key, Leg>, got: set<Key>): map<Key, Leg> {
    map k | k in legs ::
      if k !in got then legs[k] else if legs[k].ReqFlight? then ReqPolled else RespPolled
  }

  /** Requests polled by d are answered; responses polled by d are handed to their coroutines. */
  function AfterResps(legs: map<Key, Leg>, d: nat): map<Key, Leg> {
    map k | k in legs && !(k.m == d && legs[k].RespPolled?) ::
      if k.mn == d && legs[k].ReqPolled? then RespFlight else legs[k]
  }

  ghost function Apply(cfg: Config, s: Cluster, st: Step): (t: Cluster)
    requires |s.workers| == cfg.machines && Accepted(cfg) && Enabled(cfg, s, st)
    ensures |t.workers| == cfg.machines
  {
    match st
    case SendReqs(m, c, servers) =>
      s.(legs := s.legs + Started(m, c, servers))
    case Poll(d, got) =>
      Cluster(AfterPoll(s.legs, got), s.workers[d := Worker(Polled, s.workers[d].unposted + |got|)])
    case Repost(d) =>
      var n := s.workers[d].unposted;
      s.(workers := s.workers[d := Worker(Reposted, if n >= RecvSlack(cfg) then 0 else n)])
    case SendResps(d) =>
      Cluster(AfterResps(s.legs, d), s.workers[d := s.workers[d].(phase := Idle)])
  }

  ghost predicate Run(cfg: Config, s: Cluster, steps: seq<Step>, t: Cluster)
    requires Accepted(cfg)
    decreases steps
  {
    && |s.workers| == cfg.machines
    && if steps == [] then s == t
       else Enabled(cfg, s, steps[0]) && Run(cfg, Apply(cfg, s, steps[0]), steps[1..], t)
  }

  predicate Initial(cfg: Config, s: Cluster) {
    s.legs == map[] && |s.workers| == cfg.machines &&
    forall d :: 0 <= d < |s.workers| ==> s.workers[d] == Worker(Idle, 0)
  }

  // The invariant.

  ghost predicate LegsOk(cfg: Config, legs: map<Key, Leg>) {
    && (forall k :: k in legs ==> k.m < cfg.machines && k.mn < cfg.machines && 1 <= k.c < cfg.coros)
    && (forall m, c :: |Exchanges(legs, m, c)| <= MAX_MSG_CORO)
  }

  ghost predicate WorkerOk(cfg: Config, legs: map<Key, Leg>, w: Worker, d: nat) {
    match w.phase
    case Idle => PolledBy(legs, d) == {} && w.unposted < MIN_RECV_SLACK
    case Polled => w.unposted < MIN_RECV_SLACK + |PolledBy(legs, d)|
    case Reposted => w.unposted < MIN_RECV_SLACK
  }

  ghost predicate Inv(cfg: Config, s: Cluster) {
    && LegsOk(cfg, s.legs) && |s.workers| == cfg.machines
    && forall d :: 0 <= d < cfg.machines ==> WorkerOk(cfg, s.legs, s.workers[d], d)
  }

  // Counting.

  lemma SubsetCard<T>(a: set<T>, b: set<T>)
    requires a <= b
    ensures |a| <= |b|
  {
    assert b == a + (b - a);
  }

  ghost function From(ks: set<Key>, c: nat): set<Key> {
    set k | k in ks && k.c == c
  }

  /** Keys of fewer than n coroutines, at most b for each: at most n * b. */
  lemma {:induction false} FiberCount(ks: set<Key>, n: nat, b: nat)
    requires forall k :: k in ks ==> 1 <= k.c <= n
    requires forall c :: |From(ks, c)| <= b
    ensures |ks| <= n * b
  {
    if n == 0 {
      if k :| k in ks { assert false; }
    } else {
      var last := From(ks, n);
      forall c ensures |From(ks - last, c)| <= b { SubsetCard(From(ks - last, c), From(ks, c)); }
      FiberCount(ks - last, n - 1, b);
      assert ks == (ks - last) + last;
    }
  }

  /** One exchange per coroutine and machine: at most machines requests per coroutine number. */
  lemma {:induction false} KeyCount(ks: set<Key>, d: nat, c: nat, n: nat)
    requires forall k :: k in ks ==> k.mn == d && k.c == c && k.m < n
    ensures |ks| <= n
  {
    if n == 0 {
      if k :| k in ks { assert false; }
    } else {
      var last := Key(n - 1, c, d);
      KeyCount(ks - {last}, d, c, n - 1);
      SubsetCard(ks, ks - {last} + {last});
    }
  }

  ghost function RequestsAt(legs: map<Key, Leg>, d: nat): set<Key> {
    set k | k in legs && k.mn == d && (legs[k].ReqFlight? || legs[k].ReqPolled?)
  }

  ghost function ResponsesTo(legs: map<Key, Leg>, d: nat): set<Key> {
    set k | k in legs && k.m == d && (legs[k].RespFlight? || legs[k].RespPolled?)
  }

  lemma RequestsBound(cfg: Config, legs: map<Key, Leg>, d: nat)
    requires cfg.coros > 0 && LegsOk(cfg, legs)
    ensures |RequestsAt(legs, d)| <= (cfg.coros - 1) * cfg.machines
  {
    var reqs := RequestsAt(legs, d);
    forall c ensures |From(reqs, c)| <= cfg.machines { KeyCount(From(reqs, c), d, c, cfg.machines); }
    FiberCount(reqs, cfg.coros - 1, cfg.machines);
  }

  lemma ResponsesBound(cfg: Config, legs: map<Key, Leg>, d: nat)
    requires cfg.coros > 0 && LegsOk(cfg, legs)
    ensures |ResponsesTo(legs, d)| <= (cfg.coros - 1) * MAX_MSG_CORO
  {
    var resps := ResponsesTo(legs, d);
    forall c ensures |From(resps, c)| <= MAX_MSG_CORO { SubsetCard(From(resps, c), Exchanges(legs, d, c)); }
    FiberCount(resps, cfg.coros - 1, MAX_MSG_CORO);
  }

  /** Requests at machine d, polled or not, and responses to it: never more than required. */
  lemma DemandBound(cfg: Config, legs: map<Key, Leg>, d: nat)
    requires cfg.coros > 0 && LegsOk(cfg, legs)
    ensures |Inbound(legs, d)| + |PolledBy(legs, d)| <= RequiredRecvs(cfg)
  {
    RequestsBound(cfg, legs, d);
    ResponsesBound(cfg, legs, d);
    assert (cfg.coros - 1) * cfg.machines == cfg.machines * (cfg.coros - 1);
    hide LegsOk;
    var inb, pol := Inbound(legs, d), PolledBy(legs, d);
    assert inb !! pol && |inb + pol| == |inb| + |pol|;
    SubsetCard(inb + pol, RequestsAt(legs, d) + ResponsesTo(legs, d));
  }

  // Every step keeps the invariant.

  lemma {:induction false} StartedCard(m: nat, c: nat, servers: set<nat>)
    ensures |Started(m, c, servers).Keys| == |servers|
  {
    if servers != {} {
      var mn :| mn in servers;
      StartedCard(m, c, servers - {mn});
      assert Started(m, c, servers).Keys == Started(m, c, servers - {mn}).Keys + {Key(m, c, mn)};
    }
  }

  lemma StartedAdds(legs: map<Key, Leg>, m: nat, c: nat, servers: set<nat>)
    requires Exchanges(legs, m, c) == {}
    ensures var legs' := legs + Started(m, c, servers);
            && Exchanges(legs', m, c) == Started(m, c, servers).Keys
            && (forall m': nat, c': nat :: (m', c') != (m, c) ==> Exchanges(legs', m', c') == Exchanges(legs, m', c'))
            && (forall d :: PolledBy(legs', d) == PolledBy(legs, d))
  {
    assert forall k :: k in legs && k.m == m && k.c == c ==> k in Exchanges(legs, m, c);
    var legs' := legs + Started(m, c, servers);
    forall d ensures PolledBy(legs', d) == PolledBy(legs, d) {}
    forall m': nat, c': nat | (m', c') != (m, c) ensures Exchanges(legs', m', c') == Exchanges(legs, m', c') {}
  }

  lemma SendReqsLegs(cfg: Config, legs: map<Key, Leg>, m: nat, c: nat, servers: set<nat>)
    requires LegsOk(cfg, legs) && Exchanges(legs, m, c) == {} && |servers| <= MAX_MSG_CORO
    requires m < cfg.machines && 1 <= c < cfg.coros && forall mn :: mn in servers ==> mn < cfg.machines
    ensures LegsOk(cfg, legs + Started(m, c, servers))
  {
    StartedAdds(legs, m, c, servers);
    StartedCard(m, c, servers);
    var legs' := legs + Started(m, c, servers);
    forall k | k in legs' ensures k.m < cfg.machines && k.mn < cfg.machines && 1 <= k.c < cfg.coros {
      if k in Started(m, c, servers) {}
    }
    hide PolledBy, Exchanges;
    forall m': nat, c': nat ensures |Exchanges(legs', m', c')| <= MAX_MSG_CORO {
      if (m', c') != (m, c) { assert Exchanges(legs', m', c') == Exchanges(legs, m', c'); }
    }
  }

  lemma SendReqsKeeps(cfg: Config, s: Cluster, st: Step)
    requires Accepted(cfg) && Inv(cfg, s) && Enabled(cfg, s, st) && st.SendReqs?
    ensures Inv(cfg, Apply(cfg, s, st))
  {
    SendReqsLegs(cfg, s.legs, st.m, st.c, st.servers);
    StartedAdds(s.legs, st.m, st.c, st.servers);
    hide PolledBy, Exchanges, LegsOk, Started;
  }

  lemma PollKeeps(cfg: Config, s: Cluster, st: Step)
    requires Accepted(cfg) && Inv(cfg, s) && Enabled(cfg, s, st) && st.Poll?
    ensures Inv(cfg, Apply(cfg, s, st))
  {
    var legs, legs' := s.legs, AfterPoll(s.legs, st.got);
    forall m, c ensures |Exchanges(legs', m, c)| <= MAX_MSG_CORO {
      assert Exchanges(legs', m, c) == Exchanges(legs, m, c);
    }
    forall d | 0 <= d < cfg.machines ensures PolledBy(legs', d) == (if d == st.d then st.got else PolledBy(legs, d)) {
      assert WorkerOk(cfg, legs, s.workers[d], d);
      assert forall k :: k in PolledBy(legs, d) <==>
        k in legs && ((k.mn == d && legs[k].ReqPolled?) || (k.m == d && legs[k].RespPolled?));
    }
  }

  lemma RepostKeeps(cfg: Config, s: Cluster, st: Step)
    requires Accepted(cfg) && Inv(cfg, s) && Enabled(cfg, s, st) && st.Repost?
    ensures Inv(cfg, Apply(cfg, s, st))
  {
  }

  lemma SendRespsKeeps(cfg: Config, s: Cluster, st: Step)
    requires Accepted(cfg) && Inv(cfg, s) && Enabled(cfg, s, st) && st.SendResps?
    ensures Inv(cfg, Apply(cfg, s, st))
  {
    var legs, legs' := s.legs, AfterResps(s.legs, st.d);
    forall m, c ensures |Exchanges(legs', m, c)| <= MAX_MSG_CORO {
      SubsetCard(Exchanges(legs', m, c), Exchanges(legs, m, c));
    }
    forall d | 0 <= d < cfg.machines ensures PolledBy(legs', d) == (if d == st.d then {} else PolledBy(legs, d)) {
    }
  }

  lemma {:induction false} RunKeeps(cfg: Config, s: Cluster, steps: seq<Step>, t: Cluster)
    requires Accepted(cfg) && Inv(cfg, s) && Run(cfg, s, steps, t)
    ensures Inv(cfg, t)
    decreases steps
  {
    hide Inv, Apply, Enabled, Accepted;
    if steps != [] {
      var st := steps[0];
      match st {
        case SendReqs(_, _, _) => SendReqsKeeps(cfg, s, st);
        case Poll(_, _) => PollKeeps(cfg, s, st);
        case Repost(_) => RepostKeeps(cfg, s, st);
        case SendResps(_) => SendRespsKeeps(cfg, s, st);
      }
      RunKeeps(cfg, Apply(cfg, s, st), steps[1..], t);
    }
  }

  /** In every reachable state of an accepted configuration, the messages on their way to a
      machine and the RECVs it has not re-posted leave at least one RECV over: no arriving
      message finds the queue empty. */
  lemma RecvAvailable(cfg: Config, s: Cluster, steps: seq<Step>, t: Cluster, d: nat)
    requires Accepted(cfg) && Initial(cfg, s) && Run(cfg, s, steps, t) && d < cfg.machines
    ensures |t.workers| == cfg.machines
    ensures |Inbound(t.legs, d)| + t.workers[d].unposted < RQ_DEPTH
  {
    assert Inv(cfg, s) by {
      forall m, c ensures Exchanges(s.legs, m, c) == {} {}
      forall e ensures PolledBy(s.legs, e) == {} {}
    }
    RunKeeps(cfg, s, steps, t);
    DemandBound(cfg, t.legs, d);
    assert WorkerOk(cfg, t.legs, t.workers[d], d);
  }
}
