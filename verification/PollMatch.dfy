/** One poll of a worker, seen from the cluster: the loop over the polled completions does
    what delivering the responses and serving the requests one by one does. */
module PollMatch {
  import opened Messages
  import opened Batches
  import M = Matching
  import R = RunRing

  /** A polled message, and for a request what its handlers answer. */
  datatype Arrival = Arrival(p: M.Packet, results: seq<Result>)

  function Completion(a: Arrival): R.Completion {
    if a.p.isReq then R.Request(a.p.m, a.p.c, a.p.entries, a.results) else R.Response(a.p.c, a.p.entries)
  }

  function StepOf(a: Arrival): M.Step {
    if a.p.isReq then M.Serve(a.p, a.results) else M.Deliver(a.p)
  }

  function Completions(arrivals: seq<Arrival>): (ws: seq<R.Completion>)
    ensures |ws| == |arrivals| && forall i :: 0 <= i < |ws| ==> ws[i] == Completion(arrivals[i])
  {
    seq(|arrivals|, i requires 0 <= i < |arrivals| => Completion(arrivals[i]))
  }

  function Steps(arrivals: seq<Arrival>): (steps: seq<M.Step>)
    ensures |steps| == |arrivals| && forall i :: 0 <= i < |steps| ==> steps[i] == StepOf(arrivals[i])
  {
    seq(|arrivals|, i requires 0 <= i < |arrivals| => StepOf(arrivals[i]))
  }

  /** Different messages of the network that are for machine m. */
  predicate Arrived(net: set<M.Packet>, m: nat, arrivals: seq<Arrival>) {
    && (forall i :: 0 <= i < |arrivals| ==>
          && arrivals[i].p in net
          && (if arrivals[i].p.isReq then arrivals[i].p.mn == m && |arrivals[i].results| == |arrivals[i].p.entries|
              else arrivals[i].p.m == m))
    && (forall i, j :: 0 <= i < j < |arrivals| ==> arrivals[i].p != arrivals[j].p)
  }

  /** Machine m runs coroutines 1 .. n - 1 beside the master. */
  ghost predicate HasCoros(s: M.Cluster, m: nat, n: nat) {
    n > 0 && forall c :: (m, c) in s.coros <==> 1 <= c < n
  }

  /** The worker's array of request batches. */
  function BatchesAt(s: M.Cluster, m: nat, n: nat): (bs: seq<Batch>)
    ensures |bs| == n
    ensures forall c :: 0 <= c < n ==> bs[c] == if (m, c) in s.coros then s.coros[(m, c)].batch else EMPTY
  {
    seq(n, c requires 0 <= c < n => if (m, c) in s.coros then s.coros[(m, c)].batch else EMPTY)
  }

  /** In state t the poll that began in state s has worked through the completions ws. */
  ghost predicate Tracks(s: M.Cluster, t: M.Cluster, m: nat, n: nat, ws: seq<R.Completion>) {
    && HasCoros(s, m, n) && HasCoros(t, m, n) && R.AllValid(n, ws)
    && BatchesAt(t, m, n) == R.After(BatchesAt(s, m, n), ws)
    && Woken(s, t, m, n, R.Completed(BatchesAt(s, m, n), ws))
  }

  /** Exactly the listed coroutines have gone from waiting to runnable; no other phase changed. */
  ghost predicate Woken(s: M.Cluster, t: M.Cluster, m: nat, n: nat, listed: seq<nat>) {
    forall c :: 1 <= c < n && (m, c) in s.coros && (m, c) in t.coros ==>
      var before, after := s.coros[(m, c)].phase, t.coros[(m, c)].phase;
      if c in listed then before.Waiting? && after.Runnable? else after == before
  }

  lemma {:induction false} RunSnoc(s: M.Cluster, steps: seq<M.Step>, t: M.Cluster, st: M.Step)
    requires M.Run(s, steps, t) && M.Enabled(t, st)
    ensures M.Run(s, steps + [st], M.Apply(t, st))
    decreases steps
  {
    if steps == [] {
      assert (steps + [st])[1..] == [];
    } else {
      RunSnoc(M.Apply(s, steps[0]), steps[1..], t, st);
      assert (steps + [st])[1..] == steps[1..] + [st];
    }
  }

  /** A response in the network is for a waiting coroutine and is not empty. */
  lemma ResponseValid(t: M.Cluster, m: nat, n: nat, p: M.Packet)
    requires M.Inv(t) && HasCoros(t, m, n) && p in t.net && !p.isReq && p.m == m
    ensures 1 <= p.c < n && p.entries != [] && t.coros[(m, p.c)].phase.Waiting?
  {
    assert M.PacketOk(t, p);
    var co := t.coros[(m, p.c)];
    assert M.CoroOk(t.handled, m, p.c, co, M.Outstanding(t.net, m, p.c));
    M.WfOnePerMachine(co.batch);
  }

  lemma ArrivalEnabled(t: M.Cluster, m: nat, n: nat, a: Arrival)
    requires M.Inv(t) && HasCoros(t, m, n) && a.p in t.net
    requires if a.p.isReq then |a.results| == |a.p.entries| else a.p.m == m
    ensures M.Enabled(t, StepOf(a))
  {
    if !a.p.isReq { ResponseValid(t, m, n, a.p); }
  }

  lemma CompletionsNext(arrivals: seq<Arrival>)
    requires arrivals != []
    ensures var k, ws := |arrivals| - 1, Completions(arrivals);
            && ws == Completions(arrivals[..k]) + [Completion(arrivals[k])]
            && Steps(arrivals) == Steps(arrivals[..k]) + [StepOf(arrivals[k])]
  {
  }

  lemma AfterNext(bs: seq<Batch>, ws: seq<R.Completion>)
    requires ws != [] && R.AllValid(|bs|, ws)
    ensures var w, rest := ws[|ws| - 1], ws[..|ws| - 1];
            var prev, next := R.After(bs, rest), R.After(bs, ws);
            if w.Response?
            then && next == prev[w.coro := Absorb(prev[w.coro], w.entries)]
                 && R.Completed(bs, ws) ==
                      if next[w.coro].done == |next[w.coro].slots| then R.Completed(bs, rest) + [w.coro]
                      else R.Completed(bs, rest)
            else next == prev && R.Completed(bs, ws) == R.Completed(bs, rest)
  {
  }

  /** What a delivery does to the worker's batches and to the coroutine's phase. */
  lemma DeliverAt(t: M.Cluster, m: nat, n: nat, p: M.Packet)
    requires HasCoros(t, m, n) && M.Enabled(t, M.Deliver(p)) && p.m == m && 1 <= p.c < n
    requires t.coros[(m, p.c)].phase.Waiting?
    ensures var u, bs := M.Apply(t, M.Deliver(p)), BatchesAt(t, m, n);
            var b := Absorb(bs[p.c], p.entries);
            && HasCoros(u, m, n) && BatchesAt(u, m, n) == bs[p.c := b]
            && u.coros[(m, p.c)].phase == (if b.done == |b.slots| then M.Runnable else M.Waiting)
            && (forall c :: 1 <= c < n && c != p.c ==> u.coros[(m, c)].phase == t.coros[(m, c)].phase)
            && (forall q :: q in t.net && q != p ==> q in u.net)
  {
    var u, bs := M.Apply(t, M.Deliver(p)), BatchesAt(t, m, n);
    hide Absorb;
    assert u.coros == t.coros[(m, p.c) := M.TakeIn(t.coros[(m, p.c)], p.entries)];
    assert BatchesAt(u, m, n) == bs[p.c := Absorb(bs[p.c], p.entries)];
  }

  lemma ServeAt(t: M.Cluster, m: nat, n: nat, p: M.Packet, results: seq<Result>)
    requires HasCoros(t, m, n) && M.Enabled(t, M.Serve(p, results))
    ensures var u := M.Apply(t, M.Serve(p, results));
            && HasCoros(u, m, n) && BatchesAt(u, m, n) == BatchesAt(t, m, n) && u.coros == t.coros
            && (forall q :: q in t.net && q != p ==> q in u.net)
  {
    assert BatchesAt(M.Apply(t, M.Serve(p, results)), m, n) == BatchesAt(t, m, n);
  }

  lemma WokenMore(s: M.Cluster, t: M.Cluster, u: M.Cluster, m: nat, n: nat, listed: seq<nat>, c: nat, done: bool)
    requires HasCoros(s, m, n) && HasCoros(t, m, n) && HasCoros(u, m, n) && Woken(s, t, m, n, listed)
    requires 1 <= c < n && t.coros[(m, c)].phase.Waiting?
    requires u.coros[(m, c)].phase == if done then M.Runnable else M.Waiting
    requires forall d :: 1 <= d < n && d != c ==> u.coros[(m, d)].phase == t.coros[(m, d)].phase
    ensures Woken(s, u, m, n, if done then listed + [c] else listed)
  {
  }

  lemma TracksRequest(s: M.Cluster, t: M.Cluster, m: nat, n: nat, ws: seq<R.Completion>, a: Arrival)
    requires Tracks(s, t, m, n, ws) && M.Enabled(t, StepOf(a)) && a.p.isReq && |a.results| == |a.p.entries|
    ensures Tracks(s, M.Apply(t, StepOf(a)), m, n, ws + [Completion(a)])
  {
    hide M.Apply, M.Enabled, R.Completed, R.After, Woken, HasCoros;
    var u, all, bs := M.Apply(t, StepOf(a)), ws + [Completion(a)], BatchesAt(s, m, n);
    assert all[..|ws|] == ws && all[|ws|] == Completion(a);
    ServeAt(t, m, n, a.p, a.results);
    AfterNext(bs, all);
    SamePhases(s, t, u, m, n, R.Completed(bs, ws));
  }

  lemma TracksResponse(s: M.Cluster, t: M.Cluster, m: nat, n: nat, ws: seq<R.Completion>, a: Arrival)
    requires Tracks(s, t, m, n, ws) && M.Enabled(t, StepOf(a)) && !a.p.isReq
    requires a.p.m == m && 1 <= a.p.c < n && a.p.entries != [] && (m, a.p.c) in t.coros
    requires t.coros[(m, a.p.c)].phase.Waiting?
    ensures Tracks(s, M.Apply(t, StepOf(a)), m, n, ws + [Completion(a)])
  {
    hide M.Apply, M.Enabled, R.Completed, R.After, Absorb, Woken, HasCoros;
    var u, all, bs := M.Apply(t, StepOf(a)), ws + [Completion(a)], BatchesAt(s, m, n);
    assert all[..|ws|] == ws && all[|ws|] == Completion(a);
    DeliverAt(t, m, n, a.p);
    AfterNext(bs, all);
    var b := Absorb(BatchesAt(t, m, n)[a.p.c], a.p.entries);
    WokenMore(s, t, u, m, n, R.Completed(bs, ws), a.p.c, b.done == |b.slots|);
  }

  lemma SamePhases(s: M.Cluster, t: M.Cluster, u: M.Cluster, m: nat, n: nat, listed: seq<nat>)
    requires Woken(s, t, m, n, listed) && u.coros == t.coros
    ensures Woken(s, u, m, n, listed)
  {
  }

  lemma TracksNone(s: M.Cluster, m: nat, n: nat)
    requires HasCoros(s, m, n)
    ensures Tracks(s, s, m, n, [])
  {
  }

  /** One more message of the poll. */
  lemma PollOne(s: M.Cluster, t: M.Cluster, m: nat, n: nat, steps: seq<M.Step>, ws: seq<R.Completion>, a: Arrival)
    requires M.Inv(t) && M.Run(s, steps, t) && Tracks(s, t, m, n, ws) && a.p in t.net
    requires if a.p.isReq then |a.results| == |a.p.entries| else a.p.m == m
    ensures M.Enabled(t, StepOf(a))
    ensures var u := M.Apply(t, StepOf(a));
            && M.Inv(u) && M.Run(s, steps + [StepOf(a)], u) && Tracks(s, u, m, n, ws + [Completion(a)])
            && forall q :: q in t.net && q != a.p ==> q in u.net
  {
    hide M.Inv, M.Run, M.Apply, M.Enabled, Tracks, HasCoros;
    TracksCoros(s, t, m, n, ws);
    ArrivalEnabled(t, m, n, a);
    StepNet(t, a);
    M.StepKeeps(t, StepOf(a));
    RunSnoc(s, steps, t, StepOf(a));
    if a.p.isReq {
      TracksRequest(s, t, m, n, ws, a);
    } else {
      ResponseValid(t, m, n, a.p);
      TracksResponse(s, t, m, n, ws, a);
    }
  }

  lemma TracksCoros(s: M.Cluster, t: M.Cluster, m: nat, n: nat, ws: seq<R.Completion>)
    requires Tracks(s, t, m, n, ws)
    ensures HasCoros(t, m, n)
  {
  }

  lemma StepNet(t: M.Cluster, a: Arrival)
    requires M.Enabled(t, StepOf(a))
    ensures forall q :: q in t.net && q != a.p ==> q in M.Apply(t, StepOf(a)).net
  {
  }

  lemma ArrivedRest(s: M.Cluster, t: M.Cluster, m: nat, arrivals: seq<Arrival>)
    requires arrivals != [] && Arrived(s.net, m, arrivals)
    ensures var a := arrivals[|arrivals| - 1];
            && Arrived(s.net, m, arrivals[..|arrivals| - 1])
            && (if a.p.isReq then |a.results| == |a.p.entries| else a.p.m == m)
            && (NetKept(s, t, arrivals[..|arrivals| - 1]) ==> a.p in t.net)
  {
    var k := |arrivals| - 1;
    assert forall i :: 0 <= i < k ==> arrivals[..k][i].p != arrivals[k].p;
  }

  /** Messages not polled stay in the network. */
  ghost predicate NetKept(s: M.Cluster, t: M.Cluster, arrivals: seq<Arrival>) {
    forall p :: p in s.net && (forall i :: 0 <= i < |arrivals| ==> arrivals[i].p != p) ==> p in t.net
  }

  lemma NetKeptMore(s: M.Cluster, t: M.Cluster, u: M.Cluster, arrivals: seq<Arrival>)
    requires arrivals != [] && NetKept(s, t, arrivals[..|arrivals| - 1])
    requires forall q :: q in t.net && q != arrivals[|arrivals| - 1].p ==> q in u.net
    ensures NetKept(s, u, arrivals)
  {
  }

  /** The poll as a run of the cluster. */
  lemma {:induction false} PollRuns(s: M.Cluster, m: nat, n: nat, arrivals: seq<Arrival>) returns (t: M.Cluster)
    requires M.Inv(s) && HasCoros(s, m, n) && Arrived(s.net, m, arrivals)
    ensures M.Run(s, Steps(arrivals), t) && M.Inv(t) && Tracks(s, t, m, n, Completions(arrivals))
    ensures NetKept(s, t, arrivals)
    decreases |arrivals|
  {
    if arrivals == [] {
      TracksNone(s, m, n);
      t := s;
    } else {
      hide M.Inv, M.Run, Tracks, M.Apply, M.Enabled, HasCoros;
      hide Arrived, NetKept, Completions, Steps, StepOf, Completion;
      var k := |arrivals| - 1;
      var rest, a := arrivals[..k], arrivals[k];
      ArrivedRest(s, s, m, arrivals);
      var t0 := PollRuns(s, m, n, rest);
      ArrivedRest(s, t0, m, arrivals);
      CompletionsNext(arrivals);
      PollOne(s, t0, m, n, Steps(rest), Completions(rest), a);
      t := M.Apply(t0, StepOf(a));
      NetKeptMore(s, t0, t, arrivals);
    }
  }

  /** In every reachable state of the cluster and for every set of messages a worker finds
      in one poll: the poll is a run of single deliveries and served requests that leaves
      the worker's batches as the loop does, and the coroutines the loop links are exactly
      those that were waiting and are now runnable. */
  lemma PollLinksWoken(s0: M.Cluster, steps: seq<M.Step>, s: M.Cluster, m: nat, n: nat, arrivals: seq<Arrival>)
    returns (t: M.Cluster)
    requires M.Initial(s0) && M.Run(s0, steps, s) && HasCoros(s, m, n) && Arrived(s.net, m, arrivals)
    ensures M.Run(s, Steps(arrivals), t) && HasCoros(t, m, n)
    ensures R.AllValid(n, Completions(arrivals))
    ensures BatchesAt(t, m, n) == R.After(BatchesAt(s, m, n), Completions(arrivals))
    ensures forall c :: c in R.Completed(BatchesAt(s, m, n), Completions(arrivals)) <==>
              && 1 <= c < n && s.coros[(m, c)].phase.Waiting? && t.coros[(m, c)].phase.Runnable?
  {
    M.InitialInv(s0);
    M.RunKeeps(s0, steps, s);
    t := PollRuns(s, m, n, arrivals);
    R.CompletedOnce(BatchesAt(s, m, n), Completions(arrivals));
    hide M.Inv, M.Run, R.Completed, R.After;
  }
}
