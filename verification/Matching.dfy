/** Requests and responses of a whole cluster: coroutines build and send batches, servers
    answer requests in any order, responses arrive in any order. */
module Matching {
  import opened Messages
  import opened Batches

  /** A message in flight between requester (machine m, coroutine c) and server mn. The epoch
      numbers the requester's batches; no code reads it. */
  datatype Packet = Packet(isReq: bool, m: nat, c: nat, epoch: nat, mn: nat, entries: seq<Entry>)

  datatype Phase = Building | Waiting | Runnable

  /** `woken` counts how often the current batch was put on the runnable list. */
  datatype Coro = Coro(batch: Batch, phase: Phase, epoch: nat, woken: nat)

  /** One handler call, and what was asked and answered in it. */
  datatype Call = Call(m: nat, c: nat, epoch: nat, seqnum: nat)
  datatype Handled = Handled(typ: byte, payload: seq<byte>, answer: Slot)

  datatype Cluster = Cluster(coros: map<(nat, nat), Coro>, net: set<Packet>, handled: map<Call, Handled>)

  datatype Step =
    | NewReq(m: nat, c: nat, mn: nat, typ: byte, payload: seq<byte>)
    | Send(m: nat, c: nat)
    | Serve(req: Packet, results: seq<Result>)
    | Deliver(resp: Packet)
    | Clear(m: nat, c: nat)

  predicate Enabled(s: Cluster, st: Step) {
    match st
    case NewReq(m, c, mn, typ, payload) =>
      (m, c) in s.coros && s.coros[(m, c)].phase.Building? && |s.coros[(m, c)].batch.slots| < MAX_MSG_CORO
    case Send(m, c) =>
      (m, c) in s.coros && s.coros[(m, c)].phase.Building? && s.coros[(m, c)].batch.cmsgs != []
    case Serve(req, results) =>
      req in s.net && req.isReq && |results| == |req.entries|
    case Deliver(resp) =>
      resp in s.net && !resp.isReq && (resp.m, resp.c) in s.coros
    case Clear(m, c) =>
      (m, c) in s.coros && s.coros[(m, c)].phase.Runnable?
  }

  function Packets(m: nat, c: nat, epoch: nat, cmsgs: seq<Cmsg>): set<Packet> {
    set k | 0 <= k < |cmsgs| :: Packet(true, m, c, epoch, cmsgs[k].mn, cmsgs[k].entries)
  }

  /** The handler calls of one request message, recorded. */
  function Record(h: map<Call, Handled>, p: Packet, results: seq<Result>, n: nat): map<Call, Handled>
    requires n <= |p.entries| == |results|
  {
    if n == 0 then h
    else
      var e, r := p.entries[n - 1], results[n - 1];
      Record(h, p, results, n - 1)
      [Call(p.m, p.c, p.epoch, e.seqnum) := Handled(e.typ, e.payload, Filled(r.typ, r.payload))]
  }

  function Reply(p: Packet, results: seq<Result>): Packet
    requires |p.entries| == |results|
  {
    p.(isReq := false, entries := Respond(p.entries, results))
  }

  /** A response taken in: the coroutine becomes runnable when the counts meet. */
  function TakeIn(co: Coro, entries: seq<Entry>): Coro {
    var b := Absorb(co.batch, entries);
    if b.done == |b.slots| then Coro(b, Runnable, co.epoch, co.woken + 1) else co.(batch := b)
  }

  function Apply(s: Cluster, st: Step): Cluster
    requires Enabled(s, st)
  {
    match st
    case NewReq(m, c, mn, typ, payload) =>
      var co := s.coros[(m, c)];
      s.(coros := s.coros[(m, c) := co.(batch := Add(co.batch, mn, typ, payload))])
    case Send(m, c) =>
      var co := s.coros[(m, c)];
      s.(coros := s.coros[(m, c) := co.(phase := Waiting)], net := s.net + Packets(m, c, co.epoch, co.batch.cmsgs))
    case Serve(req, results) =>
      s.(net := s.net - {req} + {Reply(req, results)}, handled := Record(s.handled, req, results, |results|))
    case Deliver(resp) =>
      var id := (resp.m, resp.c);
      s.(coros := s.coros[id := TakeIn(s.coros[id], resp.entries)], net := s.net - {resp})
    case Clear(m, c) =>
      var co := s.coros[(m, c)];
      s.(coros := s.coros[(m, c) := Coro(EMPTY, Building, co.epoch + 1, 0)])
  }

  predicate Initial(s: Cluster) {
    s.net == {} && s.handled == map[] && forall id :: id in s.coros ==> s.coros[id] == Coro(EMPTY, Building, 0, 0)
  }

  ghost predicate Run(s: Cluster, steps: seq<Step>, t: Cluster)
    decreases steps
  {
    if steps == [] then s == t else Enabled(s, steps[0]) && Run(Apply(s, steps[0]), steps[1..], t)
  }

  // The invariant.

  /** Servers whose message to or from the coroutine is still in flight. */
  function Outstanding(net: set<Packet>, m: nat, c: nat): set<nat> {
    set p | p in net && p.m == m && p.c == c :: p.mn
  }

  /** The handler was called for this request and its answer is what the slot holds. */
  predicate Answered(h: map<Call, Handled>, m: nat, c: nat, epoch: nat, req: Entry, answer: Slot) {
    var call := Call(m, c, epoch, req.seqnum);
    call in h && h[call] == Handled(req.typ, req.payload, answer)
  }

  ghost predicate RequestOk(h: map<Call, Handled>, p: Packet, cmsg: Cmsg) {
    && p.entries == cmsg.entries
    && forall j :: 0 <= j < |p.entries| ==> Call(p.m, p.c, p.epoch, p.entries[j].seqnum) !in h
  }

  ghost predicate ResponseOk(h: map<Call, Handled>, p: Packet, cmsg: Cmsg) {
    && |p.entries| == |cmsg.entries|
    && forall j :: 0 <= j < |p.entries| ==>
         && p.entries[j].seqnum == cmsg.entries[j].seqnum
         && Answered(h, p.m, p.c, p.epoch, cmsg.entries[j], Filled(p.entries[j].typ, p.entries[j].payload))
  }

  ghost predicate PacketOk(s: Cluster, p: Packet) {
    && (p.m, p.c) in s.coros
    && var co := s.coros[(p.m, p.c)];
    && co.phase.Waiting? && p.epoch == co.epoch
    && var k := Find(co.batch.cmsgs, p.mn);
    && k < |co.batch.cmsgs|
    && if p.isReq then RequestOk(s.handled, p, co.batch.cmsgs[k]) else ResponseOk(s.handled, p, co.batch.cmsgs[k])
  }

  ghost predicate NetOk(s: Cluster) {
    && (forall p :: p in s.net ==> PacketOk(s, p))
    && (forall p, q :: p in s.net && q in s.net && p.m == q.m && p.c == q.c && p.mn == q.mn ==> p == q)
  }

  /** Every request to a server that is not outstanding has its own answer in its slot. */
  ghost predicate SlotsOk(h: map<Call, Handled>, m: nat, c: nat, co: Coro, out: set<nat>) {
    forall p :: HasEntry(co.batch.cmsgs, p) && co.batch.cmsgs[p.cmsg].mn !in out ==>
      && EntryOf(co.batch.cmsgs, p).seqnum < |co.batch.slots|
      && Answered(h, m, c, co.epoch, EntryOf(co.batch.cmsgs, p), co.batch.slots[EntryOf(co.batch.cmsgs, p).seqnum])
  }

  ghost predicate CoroOk(h: map<Call, Handled>, m: nat, c: nat, co: Coro, out: set<nat>) {
    && Wf(co.batch)
    && (forall call :: call in h && call.m == m && call.c == c ==> call.epoch <= co.epoch)
    && (co.phase.Building? ==>
          && out == {} && co.batch.done == 0 && co.woken == 0
          && (forall i :: Call(m, c, co.epoch, i) !in h))
    && (co.phase.Waiting? ==>
          && out != {} && out <= Machines(co.batch.cmsgs)
          && co.batch.done == Total(co.batch.cmsgs, Machines(co.batch.cmsgs) - out) && co.woken == 0
          && SlotsOk(h, m, c, co, out))
    && (co.phase.Runnable? ==>
          && out == {} && co.batch.done == |co.batch.slots| && co.woken == 1
          && SlotsOk(h, m, c, co, out))
  }

  ghost predicate Inv(s: Cluster) {
    && NetOk(s)
    && forall m, c :: (m, c) in s.coros ==> CoroOk(s.handled, m, c, s.coros[(m, c)], Outstanding(s.net, m, c))
  }

  lemma NewReqKeeps(s: Cluster, st: Step)
    requires Inv(s) && Enabled(s, st) && st.NewReq?
    ensures Inv(Apply(s, st))
  {
    var t, co := Apply(s, st), s.coros[(st.m, st.c)];
    AddKeepsWf(co.batch, st.mn, st.typ, st.payload);
    forall p | p in t.net ensures PacketOk(t, p) {
      assert PacketOk(s, p);
    }
  }

  lemma SendNet(s: Cluster, st: Step)
    requires Inv(s) && Enabled(s, st) && st.Send?
    ensures NetOk(Apply(s, st))
    ensures Outstanding(Apply(s, st).net, st.m, st.c) == Machines(s.coros[(st.m, st.c)].batch.cmsgs)
  {
    hide Wf, SlotsOk, Total;
    var t, co := Apply(s, st), s.coros[(st.m, st.c)];
    var sent := Packets(st.m, st.c, co.epoch, co.batch.cmsgs);
    assert CoroOk(s.handled, st.m, st.c, co, Outstanding(s.net, st.m, st.c));
    assert OnePerMachine(co.batch.cmsgs) by { WfOnePerMachine(co.batch); }
    forall p | p in s.net ensures PacketOk(t, p) && (p.m, p.c) != (st.m, st.c) {
      assert PacketOk(s, p);
    }
    forall p | p in sent ensures PacketOk(t, p) {
    }
    assert Outstanding(t.net, st.m, st.c) == Outstanding(sent, st.m, st.c);
    OutstandingSent(st.m, st.c, co.epoch, co.batch.cmsgs);
  }

  lemma WfOnePerMachine(b: Batch)
    requires Wf(b)
    ensures OnePerMachine(b.cmsgs)
  {
  }

  lemma OutstandingSent(m: nat, c: nat, epoch: nat, cmsgs: seq<Cmsg>)
    ensures Outstanding(Packets(m, c, epoch, cmsgs), m, c) == Machines(cmsgs)
  {
    forall mn | mn in Machines(cmsgs) ensures mn in Outstanding(Packets(m, c, epoch, cmsgs), m, c) {
      var k :| 0 <= k < |cmsgs| && cmsgs[k].mn == mn;
      assert Packet(true, m, c, epoch, cmsgs[k].mn, cmsgs[k].entries) in Packets(m, c, epoch, cmsgs);
    }
  }

  lemma SendKeeps(s: Cluster, st: Step)
    requires Inv(s) && Enabled(s, st) && st.Send?
    ensures Inv(Apply(s, st))
  {
    hide NetOk, Wf, SlotsOk, Total;
    var t, co := Apply(s, st), s.coros[(st.m, st.c)];
    var cmsgs := co.batch.cmsgs;
    SendNet(s, st);
    forall m, c | (m, c) in t.coros ensures CoroOk(t.handled, m, c, t.coros[(m, c)], Outstanding(t.net, m, c)) {
      if (m, c) == (st.m, st.c) {
        assert CoroOk(s.handled, m, c, co, Outstanding(s.net, m, c));
        assert Machines(cmsgs) - Machines(cmsgs) == {};
        TotalNone(cmsgs);
        NothingDue(s.handled, m, c, co.(phase := Waiting));
        assert cmsgs[0].mn in Machines(cmsgs);
      } else {
        assert Outstanding(t.net, m, c) == Outstanding(s.net, m, c);
      }
    }
  }

  lemma NothingDue(h: map<Call, Handled>, m: nat, c: nat, co: Coro)
    ensures SlotsOk(h, m, c, co, Machines(co.batch.cmsgs))
  {
  }

  /** A call made for one of the first n entries of a request. */
  ghost predicate CallOf(p: Packet, n: nat, call: Call)
    requires n <= |p.entries|
  {
    && call.m == p.m && call.c == p.c && call.epoch == p.epoch
    && exists j :: 0 <= j < n && call.seqnum == p.entries[j].seqnum
  }

  /** Recording the calls of a message adds exactly those calls. */
  lemma {:induction false} RecordEffect(h: map<Call, Handled>, p: Packet, results: seq<Result>, n: nat)
    requires n <= |p.entries| == |results|
    requires forall i, j :: 0 <= i < j < |p.entries| ==> p.entries[i].seqnum != p.entries[j].seqnum
    requires forall j :: 0 <= j < |p.entries| ==> Call(p.m, p.c, p.epoch, p.entries[j].seqnum) !in h
    ensures forall call :: call in h ==> call in Record(h, p, results, n) && Record(h, p, results, n)[call] == h[call]
    ensures forall call :: call in Record(h, p, results, n) && call !in h ==> CallOf(p, n, call)
    ensures forall j :: 0 <= j < n ==> Answered(Record(h, p, results, n), p.m, p.c, p.epoch, p.entries[j],
                                                Filled(results[j].typ, results[j].payload))
  {
    if n > 0 {
      RecordEffect(h, p, results, n - 1);
      var r, e := Record(h, p, results, n), p.entries[n - 1];
      var made := Call(p.m, p.c, p.epoch, e.seqnum);
      forall call | call in r && call !in h ensures CallOf(p, n, call) {
        if call == made { assert p.entries[n - 1].seqnum == call.seqnum; } else { assert CallOf(p, n - 1, call); }
      }
    }
  }

  /** The entries of one coalesced message have different sequence numbers. */
  lemma NumbersDiffer(b: Batch, k: nat)
    requires Wf(b) && k < |b.cmsgs|
    ensures forall i, j :: 0 <= i < j < |b.cmsgs[k].entries| ==>
              b.cmsgs[k].entries[i].seqnum != b.cmsgs[k].entries[j].seqnum
    ensures forall j :: 0 <= j < |b.cmsgs[k].entries| ==> b.cmsgs[k].entries[j].seqnum < |b.slots|
  {
    forall j | 0 <= j < |b.cmsgs[k].entries|
      ensures b.cmsgs[k].entries[j].seqnum < |b.slots| && b.places[b.cmsgs[k].entries[j].seqnum] == Place(k, j)
    {
      assert HasEntry(b.cmsgs, Place(k, j)) && EntryOf(b.cmsgs, Place(k, j)) == b.cmsgs[k].entries[j];
    }
  }

  /** Entries of different coalesced messages have different sequence numbers. */
  lemma MessagesDiffer(b: Batch, k: nat, l: nat)
    requires Wf(b) && k < |b.cmsgs| && l < |b.cmsgs| && k != l
    ensures forall i, j :: 0 <= i < |b.cmsgs[k].entries| && 0 <= j < |b.cmsgs[l].entries| ==>
              b.cmsgs[k].entries[i].seqnum != b.cmsgs[l].entries[j].seqnum
  {
    forall i, j | 0 <= i < |b.cmsgs[k].entries| && 0 <= j < |b.cmsgs[l].entries|
      ensures b.cmsgs[k].entries[i].seqnum != b.cmsgs[l].entries[j].seqnum
    {
      assert HasEntry(b.cmsgs, Place(k, i)) && EntryOf(b.cmsgs, Place(k, i)) == b.cmsgs[k].entries[i];
      assert HasEntry(b.cmsgs, Place(l, j)) && EntryOf(b.cmsgs, Place(l, j)) == b.cmsgs[l].entries[j];
    }
  }

  /** What a server's step does to the record of handler calls: it adds the calls of the one
      request it answers, none of which had been made before. */
  lemma ServeRecords(s: Cluster, st: Step)
    requires Inv(s) && Enabled(s, st) && st.Serve?
    ensures PacketOk(s, st.req)
    ensures forall j :: 0 <= j < |st.results| ==>
              Call(st.req.m, st.req.c, st.req.epoch, st.req.entries[j].seqnum) !in s.handled
    ensures forall call :: call in s.handled ==>
              call in Apply(s, st).handled && Apply(s, st).handled[call] == s.handled[call]
    ensures forall call :: call in Apply(s, st).handled && call !in s.handled ==> CallOf(st.req, |st.results|, call)
    ensures ResponseOk(Apply(s, st).handled, Reply(st.req, st.results),
                       Cmsg(st.req.mn, st.req.entries))
  {
    hide Wf, SlotsOk, Total, Record;
    var p := st.req;
    assert PacketOk(s, p);
    var co := s.coros[(p.m, p.c)];
    assert CoroOk(s.handled, p.m, p.c, co, Outstanding(s.net, p.m, p.c));
    NumbersDiffer(co.batch, Find(co.batch.cmsgs, p.mn));
    RecordEffect(s.handled, p, st.results, |st.results|);
  }

  /** A packet other than the one being answered stays as it was. */
  lemma ServePacket(s: Cluster, st: Step, q: Packet)
    requires Inv(s) && Enabled(s, st) && st.Serve? && q in s.net && q != st.req
    ensures PacketOk(Apply(s, st), q)
  {
    ServeRecords(s, st);
    hide Wf, SlotsOk, Total, Record;
    var t, p := Apply(s, st), st.req;
    assert PacketOk(s, q);
    if q.isReq && (q.m, q.c) == (p.m, p.c) {
      var co := s.coros[(p.m, p.c)];
      assert CoroOk(s.handled, p.m, p.c, co, Outstanding(s.net, p.m, p.c));
      MessagesDiffer(co.batch, Find(co.batch.cmsgs, p.mn), Find(co.batch.cmsgs, q.mn));
    }
  }

  /** New handler calls for a waiting coroutine's current batch do not disturb it. */
  lemma CoroGrow(h: map<Call, Handled>, h': map<Call, Handled>, m: nat, c: nat, co: Coro, out: set<nat>)
    requires CoroOk(h, m, c, co, out)
    requires forall call :: call in h ==> call in h' && h'[call] == h[call]
    requires forall call :: call in h' && call !in h && call.m == m && call.c == c ==>
               co.phase.Waiting? && call.epoch == co.epoch
    ensures CoroOk(h', m, c, co, out)
  {
    hide Wf, Total;
  }

  lemma ServeCoro(s: Cluster, st: Step, m: nat, c: nat)
    requires Inv(s) && Enabled(s, st) && st.Serve? && (m, c) in s.coros
    ensures CoroOk(Apply(s, st).handled, m, c, s.coros[(m, c)], Outstanding(s.net, m, c))
  {
    hide Record, CoroOk, Outstanding, ResponseOk, RequestOk;
    ServeRecords(s, st);
    CoroGrow(s.handled, Apply(s, st).handled, m, c, s.coros[(m, c)], Outstanding(s.net, m, c));
  }

  lemma ServeReply(s: Cluster, st: Step)
    requires Inv(s) && Enabled(s, st) && st.Serve?
    ensures PacketOk(Apply(s, st), Reply(st.req, st.results))
  {
    ServeRecords(s, st);
    hide CoroOk, Record;
  }

  lemma ServeKeeps(s: Cluster, st: Step)
    requires Inv(s) && Enabled(s, st) && st.Serve?
    ensures Inv(Apply(s, st))
  {
    hide CoroOk, Record, PacketOk;
    var t, p := Apply(s, st), st.req;
    var r := Reply(p, st.results);
    forall q | q in t.net ensures PacketOk(t, q) {
      if q == r { ServeReply(s, st); } else { ServePacket(s, st, q); }
    }
    forall m, c | (m, c) in t.coros ensures CoroOk(t.handled, m, c, t.coros[(m, c)], Outstanding(t.net, m, c)) {
      ServeCoro(s, st, m, c);
      assert Outstanding(t.net, m, c) == Outstanding(s.net, m, c) by {
        assert p in s.net && r in t.net;
      }
    }
  }

  /** A response fills the slots of its own requests with their own answers. */
  lemma DeliverSlots(h: map<Call, Handled>, co: Coro, out: set<nat>, p: Packet)
    requires CoroOk(h, p.m, p.c, co, out) && co.phase.Waiting? && p.mn in out && p.epoch == co.epoch
    requires Find(co.batch.cmsgs, p.mn) < |co.batch.cmsgs|
    requires ResponseOk(h, p, co.batch.cmsgs[Find(co.batch.cmsgs, p.mn)])
    ensures SlotsOk(h, p.m, p.c, co.(batch := Absorb(co.batch, p.entries)), out - {p.mn})
  {
    var b, k := co.batch, Find(co.batch.cmsgs, p.mn);
    NumbersDiffer(b, k);
    FillEffect(b.slots, p.entries);
    hide Total, Fill, Find;
    var filled := Fill(b.slots, p.entries);
    forall at | HasEntry(b.cmsgs, at) && b.cmsgs[at.cmsg].mn !in out - {p.mn}
      ensures EntryOf(b.cmsgs, at).seqnum < |b.slots|
      ensures Answered(h, p.m, p.c, co.epoch, EntryOf(b.cmsgs, at), filled[EntryOf(b.cmsgs, at).seqnum])
    {
      if at.cmsg != k {
        MessagesDiffer(b, k, at.cmsg);
        assert filled[EntryOf(b.cmsgs, at).seqnum] == b.slots[EntryOf(b.cmsgs, at).seqnum];
      } else {
        assert EntryOf(b.cmsgs, at).seqnum == p.entries[at.entry].seqnum;
      }
    }
  }

  /** A response brings the count to that of the machines heard from, and the coroutine
      becomes runnable exactly when none is outstanding. */
  lemma DeliverCoro(h: map<Call, Handled>, co: Coro, out: set<nat>, p: Packet)
    requires CoroOk(h, p.m, p.c, co, out) && co.phase.Waiting? && p.mn in out && p.epoch == co.epoch
    requires Find(co.batch.cmsgs, p.mn) < |co.batch.cmsgs|
    requires ResponseOk(h, p, co.batch.cmsgs[Find(co.batch.cmsgs, p.mn)])
    ensures CoroOk(h, p.m, p.c, TakeIn(co, p.entries), out - {p.mn})
    ensures TakeIn(co, p.entries).phase.Runnable? <==> out == {p.mn}
  {
    DeliverSlots(h, co, out, p);
    var b, k := co.batch, Find(co.batch.cmsgs, p.mn);
    var b' := Absorb(b, p.entries);
    var all := Machines(b.cmsgs);
    TotalInsert(b.cmsgs, all - out, k);
    assert all - out + {p.mn} == all - (out - {p.mn});
    TotalComplete(b.cmsgs, all - (out - {p.mn}));
    hide SlotsOk, Total, Machines, Find, Fill;
    assert Wf(b') by { assert Numbered(b'); }
    assert all <= all - (out - {p.mn}) <==> out == {p.mn};
  }

  lemma DeliverKeeps(s: Cluster, st: Step)
    requires Inv(s) && Enabled(s, st) && st.Deliver?
    ensures Inv(Apply(s, st))
  {
    hide Wf, SlotsOk, Total, Machines, ResponseOk, RequestOk;
    var t, p := Apply(s, st), st.resp;
    assert PacketOk(s, p);
    var co, out := s.coros[(p.m, p.c)], Outstanding(s.net, p.m, p.c);
    assert Outstanding(t.net, p.m, p.c) == out - {p.mn};
    DeliverCoro(s.handled, co, out, p);
    forall q | q in t.net ensures PacketOk(t, q) {
      assert PacketOk(s, q);
      if (q.m, q.c) == (p.m, p.c) { assert q.mn in out; }
    }
    forall m, c | (m, c) in t.coros ensures CoroOk(t.handled, m, c, t.coros[(m, c)], Outstanding(t.net, m, c)) {
      if (m, c) != (p.m, p.c) { assert Outstanding(t.net, m, c) == Outstanding(s.net, m, c); }
    }
  }

  lemma ClearKeeps(s: Cluster, st: Step)
    requires Inv(s) && Enabled(s, st) && st.Clear?
    ensures Inv(Apply(s, st))
  {
    var t := Apply(s, st);
    assert Wf(EMPTY);
    hide Wf, SlotsOk, Total, ResponseOk, RequestOk;
    forall q | q in t.net ensures PacketOk(t, q) {
      assert PacketOk(s, q);
    }
  }

  lemma StepKeeps(s: Cluster, st: Step)
    requires Inv(s) && Enabled(s, st)
    ensures Inv(Apply(s, st))
  {
    hide Inv, Apply, Enabled;
    match st
    case NewReq(_, _, _, _, _) => NewReqKeeps(s, st);
    case Send(_, _) => SendKeeps(s, st);
    case Serve(_, _) => ServeKeeps(s, st);
    case Deliver(_) => DeliverKeeps(s, st);
    case Clear(_, _) => ClearKeeps(s, st);
  }

  lemma {:induction false} RunKeeps(s: Cluster, steps: seq<Step>, t: Cluster)
    requires Inv(s) && Run(s, steps, t)
    ensures Inv(t)
    decreases steps
  {
    if steps != [] {
      StepKeeps(s, steps[0]);
      RunKeeps(Apply(s, steps[0]), steps[1..], t);
    }
  }

  lemma InitialInv(s: Cluster)
    requires Initial(s)
    ensures Inv(s)
  {
    assert Wf(EMPTY);
  }

  /** The request a coroutine numbered i in its current batch. */
  function RequestOf(b: Batch, i: nat): Entry
    requires i < |b.places| && HasEntry(b.cmsgs, b.places[i])
  {
    EntryOf(b.cmsgs, b.places[i])
  }

  /** In every run: a coroutine is runnable only when each of its requests has in its slot the
      answer of its own handler call; it was woken exactly once for the batch; while it waits
      it has not been woken and some answer is missing. */
  lemma ResponsesMatch(s: Cluster, steps: seq<Step>, t: Cluster, m: nat, c: nat)
    requires Initial(s) && Run(s, steps, t) && (m, c) in t.coros
    ensures var co := t.coros[(m, c)];
            && |co.batch.places| == |co.batch.slots|
            && (co.woken == if co.phase.Runnable? then 1 else 0)
            && (co.phase.Waiting? ==> co.batch.done < |co.batch.slots|)
            && (co.phase.Runnable? ==> co.batch.done == |co.batch.slots|)
            && forall i :: 0 <= i < |co.batch.slots| ==>
                 && HasEntry(co.batch.cmsgs, co.batch.places[i])
                 && RequestOf(co.batch, i).seqnum == i
                 && (co.phase.Runnable? ==>
                       Answered(t.handled, m, c, co.epoch, RequestOf(co.batch, i), co.batch.slots[i]))
  {
    InitialInv(s);
    RunKeeps(s, steps, t);
    var co, out := t.coros[(m, c)], Outstanding(t.net, m, c);
    assert CoroOk(t.handled, m, c, co, out);
    TotalComplete(co.batch.cmsgs, Machines(co.batch.cmsgs) - out);
    if co.phase.Waiting? { assert !(Machines(co.batch.cmsgs) <= Machines(co.batch.cmsgs) - out); }
    forall i | 0 <= i < |co.batch.slots|
      ensures HasEntry(co.batch.cmsgs, co.batch.places[i]) && RequestOf(co.batch, i).seqnum == i
    {
    }
  }

  /** In every run, no handler is called twice for one request, and a call once made keeps
      its record. */
  lemma HandledOnce(s: Cluster, steps: seq<Step>, t: Cluster, st: Step)
    requires Initial(s) && Run(s, steps, t) && Enabled(t, st)
    ensures forall call :: call in t.handled ==>
              call in Apply(t, st).handled && Apply(t, st).handled[call] == t.handled[call]
    ensures st.Serve? ==> forall j :: 0 <= j < |st.results| ==>
              Call(st.req.m, st.req.c, st.req.epoch, st.req.entries[j].seqnum) !in t.handled
  {
    InitialInv(s);
    RunKeeps(s, steps, t);
    if st.Serve? { ServeRecords(t, st); }
  }
}
