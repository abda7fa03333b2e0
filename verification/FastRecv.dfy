/** The mlx4 receive queue with FaSST's fast RECV path, and the RPC layer's ring of
    pre-built receive requests. */
module FastRecv {
  import Modular

  datatype Sge = Sge(addr: nat, length: nat, lkey: nat)

  datatype Wr = Wr(wrId: nat, sges: seq<Sge>)

  /** The buffers that an inline-received message is copied to: addresses and lengths. */
  type Buffers = seq<(nat, nat)>

  /** A receive queue: the descriptors in the slots, the buffer lists for inline receive, none
      if it is off, the indices, and the doorbell record. */
  datatype Rq = Rq(wqes: seq<Wr>, inlr: seq<Buffers>, head: nat, tail: nat, doorbell: nat)

  datatype Status = Ok | NoMem | Invalid

  function BuffersOf(wr: Wr): (b: Buffers)
    ensures |b| == |wr.sges|
  {
    seq(|wr.sges|, i requires 0 <= i < |wr.sges| => (wr.sges[i].addr, wr.sges[i].length))
  }

  function SetBuffers(inlr: seq<Buffers>, i: nat, wr: Wr): (r: seq<Buffers>)
    ensures |r| == |inlr|
  {
    if i < |inlr| then inlr[i := BuffersOf(wr)] else inlr
  }

  /** The descriptor written at the head, and the head moved on. */
  function Put(q: Rq, wr: Wr): (r: Rq)
    requires |q.wqes| > 0
    ensures |r.wqes| == |q.wqes| && |r.inlr| == |q.inlr|
  {
    var i := q.head % |q.wqes|;
    q.(wqes := q.wqes[i := wr], inlr := SetBuffers(q.inlr, i, wr), head := q.head + 1)
  }

  function PutAll(q: Rq, wrs: seq<Wr>): (r: Rq)
    requires |q.wqes| > 0
    ensures |r.wqes| == |q.wqes| && |r.inlr| == |q.inlr|
    ensures r.head == q.head + |wrs| && r.tail == q.tail && r.doorbell == q.doorbell
  {
    if wrs == [] then q else Put(PutAll(q, wrs[..|wrs| - 1]), wrs[|wrs| - 1])
  }

  lemma PutNone(q: Rq, wrs: seq<Wr>)
    requires |q.wqes| > 0
    ensures PutAll(q, wrs[..0]) == q
  {
  }

  lemma PutNext(q: Rq, wrs: seq<Wr>, k: nat)
    requires |q.wqes| > 0 && k < |wrs|
    ensures PutAll(q, wrs[..k + 1]) == Put(PutAll(q, wrs[..k]), wrs[k])
  {
    assert wrs[..k + 1][..k] == wrs[..k];
  }

  function Ring(q: Rq): Rq {
    q.(doorbell := q.head % 0x1_0000)
  }

  /** Whether the request at position i of a list is taken, when those before it were. */
  predicate Fits(q: Rq, wr: Wr, i: nat, ignoreOverflow: bool, maxPost: nat, maxGs: nat) {
    (ignoreOverflow || q.head - q.tail + i < maxPost) && |wr.sges| <= maxGs
  }

  class RecvQueue {
    var wqes: array<Wr>
    const inlr: array<Buffers>
    var head: nat
    var tail: nat
    var doorbell: nat
    const ignoreOverflow: bool
    const maxPost: nat
    const maxGs: nat

    function State(): Rq
      reads this, wqes, inlr
    {
      Rq(wqes[..], inlr[..], head, tail, doorbell)
    }

    ghost predicate Valid()
      reads this
    {
      wqes.Length > 0 && tail <= head && (inlr.Length == 0 || inlr.Length == wqes.Length)
    }

    /** mlx4_post_recv on a list: the requests before the first one that does not fit are
        taken, and the status names what was wrong with that one. */
    method PostRecv(wrs: seq<Wr>) returns (status: Status, taken: nat)
      requires Valid()
      modifies this, wqes, inlr
      ensures Valid() && wqes == old(wqes) && taken <= |wrs|
      ensures State() == (if taken > 0 then Ring(PutAll(old(State()), wrs[..taken])) else old(State()))
      ensures forall i :: 0 <= i < taken ==> Fits(old(State()), wrs[i], i, ignoreOverflow, maxPost, maxGs)
      ensures status == Ok <==> taken == |wrs|
      ensures taken < |wrs| ==> !Fits(old(State()), wrs[taken], taken, ignoreOverflow, maxPost, maxGs)
      ensures status == NoMem <==> taken < |wrs| && !ignoreOverflow && old(head - tail) + taken >= maxPost
    {
      hide SetBuffers, PutAll;
      ghost var q := State();
      var ind := head % wqes.Length;
      taken := 0;
      status := Ok;
      PutNone(q, wrs);
      while taken < |wrs|
        invariant taken <= |wrs| && wqes == old(wqes) && status == Ok
        invariant head == q.head && tail == q.tail && doorbell == q.doorbell
        invariant ind == (q.head + taken) % wqes.Length
        invariant Rq(wqes[..], inlr[..], head + taken, tail, doorbell) == PutAll(q, wrs[..taken])
        invariant forall i :: 0 <= i < taken ==> Fits(q, wrs[i], i, ignoreOverflow, maxPost, maxGs)
      {
        if !ignoreOverflow && head - tail + taken >= maxPost {
          status := NoMem;
          break;
        }
        if |wrs[taken].sges| > maxGs {
          status := Invalid;
          break;
        }
        PutNext(q, wrs, taken);
        Modular.Successor(wqes.Length, q.head + taken);
        WriteSlot(ind, wrs[taken]);
        ind := if ind + 1 == wqes.Length then 0 else ind + 1;
        taken := taken + 1;
      }
      if taken > 0 {
        head := head + taken;
        doorbell := head % 0x1_0000;
      }
    }

    /** The descriptor of one slot and, with inline receive, its buffer list. */
    method WriteSlot(i: nat, wr: Wr)
      requires Valid() && i < wqes.Length
      modifies wqes, inlr
      ensures wqes[..] == old(wqes[..])[i := wr] && inlr[..] == SetBuffers(old(inlr[..]), i, wr)
    {
      wqes[i] := wr;
      if inlr.Length > 0 { inlr[i] := BuffersOf(wr); }
    }

    /** A list whose requests are each acceptable is taken whole exactly if there is room. */
    method PostWhole(wrs: seq<Wr>) returns (ok: bool)
      requires Valid() && wrs != [] && forall i :: 0 <= i < |wrs| ==> |wrs[i].sges| <= maxGs
      modifies this, wqes, inlr
      ensures Valid() && wqes == old(wqes)
      ensures ok <==> ignoreOverflow || old(head - tail) + |wrs| <= maxPost
      ensures ok ==> State() == Ring(PutAll(old(State()), wrs))
    {
      var status, taken := PostRecv(wrs);
      ok := status == Ok;
      assert wrs[..|wrs|] == wrs;
    }

    /** The fast path: only the head and the doorbell move. */
    method FastPostRecv(n: nat)
      requires Valid()
      modifies this
      ensures Valid() && wqes == old(wqes)
      ensures State() == Ring(old(State()).(head := old(head) + n))
    {
      head := head + n;
      doorbell := head % 0x1_0000;
    }

    /** What polling a receive completion does to the queue. */
    method Complete() returns (wrId: nat)
      requires Valid() && tail < head
      modifies this`tail
      ensures Valid()
      ensures wrId == State().wqes[old(tail) % wqes.Length].wrId
      ensures State() == old(State()).(tail := old(tail) + 1)
    {
      wrId := wqes[tail % wqes.Length].wrId;
      tail := tail + 1;
    }
  }

  // The RPC layer keeps as many receive requests as its ring is deep, linked in a circle.

  /** The chain of n requests that starts at index first of the circle. */
  function Chain(wrs: seq<Wr>, first: nat, n: nat): (c: seq<Wr>)
    requires |wrs| > 0
    ensures |c| == n
    ensures forall i :: 0 <= i < n ==> c[i] == wrs[(first + i) % |wrs|]
  {
    seq(n, i requires 0 <= i < n => wrs[(first + i) % |wrs|])
  }

  /** The index after i in the circle. */
  function After(depth: nat, i: nat): nat {
    if i + 1 == depth then 0 else i + 1
  }

  /** One step along a chain of n: the last request is reached only at its end. */
  lemma ChainStep(wrs: seq<Wr>, first: nat, k: nat, n: nat)
    requires k < n <= |wrs|
    ensures Chain(wrs, first, k + 1) == Chain(wrs, first, k) + [wrs[(first + k) % |wrs|]]
    ensures After(|wrs|, (first + k) % |wrs|) == (first + k + 1) % |wrs|
    ensures (first + k) % |wrs| == (first + n - 1) % |wrs| <==> k == n - 1
  {
    Modular.Successor(|wrs|, first + k);
    if k < n - 1 { Modular.Apart(|wrs|, first + k, first + n - 1); }
  }

  /** The index arithmetic of post_recvs: where the chain ends, and where the next one starts. */
  method NextHead(depth: nat, recvHead: nat, n: nat) returns (last: nat, next: nat)
    requires recvHead < depth && 0 < n <= depth
    ensures last == (recvHead + n - 1) % depth
    ensures next == (recvHead + n) % depth
  {
    last := recvHead + n - 1;
    if last >= depth {
      Modular.Unique(depth, last, 1, last - depth);
      last := last - depth;
    } else {
      Modular.Unique(depth, last, 0, last);
    }
    Modular.Successor(depth, recvHead + n - 1);
    next := last + 1;
    if next == depth { next := 0; }
  }

  datatype Op = Post(n: nat) | Poll

  /** A worker's receive side: the queue, and the next request of the circle to post. */
  datatype Side = Side(q: Rq, recvHead: nat)

  /** One step with ordinary RECVs. */
  function Slow(s: Side, wrs: seq<Wr>, op: Op): (r: Side)
    requires |wrs| > 0 && |s.q.wqes| > 0
    ensures |r.q.wqes| == |s.q.wqes|
  {
    match op
    case Post(n) => Side(Ring(PutAll(s.q, Chain(wrs, s.recvHead, n))), (s.recvHead + n) % |wrs|)
    case Poll => s.(q := s.q.(tail := s.q.tail + 1))
  }

  /** The same step with fast RECVs. */
  function Fast(q: Rq, op: Op): (r: Rq)
    ensures |r.wqes| == |q.wqes|
  {
    match op
    case Post(n) => Ring(q.(head := q.head + n))
    case Poll => q.(tail := q.tail + 1)
  }

  /** A step the RPC layer may take: it never has more than depth RECVs posted, and only
      polls a completion of a posted RECV. */
  predicate Allowed(q: Rq, depth: nat, op: Op) {
    match op
    case Post(n) => 0 < n && q.head + n <= q.tail + depth
    case Poll => q.tail < q.head
  }

  /** What a request links to: the next one of its chain, or nothing. */
  datatype Link = End | To(index: nat)

  /** A worker's receive requests, linked in a circle, and its queue. */
  class Worker {
    const wrs: seq<Wr>
    const links: array<Link>
    const queue: RecvQueue
    var recvHead: nat

    /** Each request links to its successor, and the driver takes each by itself. */
    ghost predicate Valid()
      reads this, links, queue
    {
      && queue.Valid() && recvHead < |wrs| == links.Length
      && (forall i :: 0 <= i < |wrs| ==> links[i] == To(After(|wrs|, i)))
      && (forall i :: 0 <= i < |wrs| ==> |wrs[i].sges| <= queue.maxGs)
    }

    /** init_recv_wrs. */
    constructor (requests: seq<Wr>, q: RecvQueue)
      requires q.Valid() && requests != [] && forall i :: 0 <= i < |requests| ==> |requests[i].sges| <= q.maxGs
      ensures Valid() && wrs == requests && queue == q && recvHead == 0 && fresh(links)
    {
      wrs, queue, recvHead := requests, q, 0;
      var depth := |requests|;
      var circle := new Link[depth];
      for i := 0 to depth
        invariant forall j :: 0 <= j < i ==> circle[j] == To(After(depth, j))
      {
        circle[i] := To(if i < depth - 1 then i + 1 else 0);
      }
      links := circle;
    }

    function Now(): Side
      reads this, queue, queue.wqes, queue.inlr
    {
      Side(queue.State(), recvHead)
    }

    /** post_recvs: cut the circle after the last request, hand the chain to the driver, and
        close the circle again. It fails only if the queue has no room for all n. */
    method PostRecvs(n: nat) returns (ok: bool)
      requires Valid() && 0 < n <= |wrs|
      modifies this, links, queue, queue.wqes, queue.inlr
      ensures ok <==> queue.ignoreOverflow || old(queue.head - queue.tail) + n <= queue.maxPost
      ensures ok ==> Valid() && Now() == Slow(old(Now()), wrs, Post(n))
    {
      hide PutAll, Chain, BuffersOf, After;
      var first := recvHead;
      var last, next := NextHead(|wrs|, first, n);
      var saved := links[last];
      links[last] := End;
      var chain := Follow(first, last, n);
      ok := queue.PostWhole(chain);
      if ok {
        links[last] := saved;
        recvHead := next;
      }
    }

    /** The requests of a chain cut after its last one, in link order. */
    method Follow(first: nat, last: nat, n: nat) returns (chain: seq<Wr>)
      requires first < |wrs| == links.Length && 0 < n <= |wrs| && last == (first + n - 1) % |wrs|
      requires forall i :: 0 <= i < |wrs| ==> links[i] == if i == last then End else To(After(|wrs|, i))
      ensures chain == Chain(wrs, first, n)
    {
      chain := [];
      var at := To(first);
      Modular.Unique(|wrs|, first, 0, first);
      while at != End
        invariant |chain| <= n && chain == Chain(wrs, first, |chain|)
        invariant at == if |chain| == n then End else To((first + |chain|) % |wrs|)
        decreases n - |chain|
      {
        ChainStep(wrs, first, |chain|, n);
        chain := chain + [wrs[at.index]];
        at := links[at.index];
      }
    }

    /** post_recvs_fast never fails and touches no request. */
    method PostRecvsFast(n: nat)
      requires Valid()
      modifies queue
      ensures Valid() && Now() == old(Now()).(q := Fast(old(Now().q), Post(n)))
    {
      queue.FastPostRecv(n);
    }
  }

  function SlowRun(s: Side, wrs: seq<Wr>, ops: seq<Op>): (r: Side)
    requires |wrs| > 0 && |s.q.wqes| > 0
    ensures |r.q.wqes| == |s.q.wqes|
    decreases ops
  {
    if ops == [] then s else SlowRun(Slow(s, wrs, ops[0]), wrs, ops[1..])
  }

  function FastRun(q: Rq, ops: seq<Op>): (r: Rq)
    ensures |r.wqes| == |q.wqes|
    decreases ops
  {
    if ops == [] then q else FastRun(Fast(q, ops[0]), ops[1..])
  }

  predicate AllowedRun(q: Rq, depth: nat, ops: seq<Op>)
    decreases ops
  {
    ops == [] || (Allowed(q, depth, ops[0]) && AllowedRun(Fast(q, ops[0]), depth, ops[1..]))
  }

  /** The state after the constructor has posted the whole circle once. */
  function Filled(q0: Rq, wrs: seq<Wr>): (r: Side)
    requires |wrs| > 0 && |q0.wqes| > 0
    ensures |r.q.wqes| == |q0.wqes|
  {
    Slow(Side(q0, 0), wrs, Post(|wrs|))
  }

  /** Every slot holds the request of the same index. */
  ghost predicate InStep(s: Side, wrs: seq<Wr>) {
    && |wrs| > 0 && s.q.wqes == wrs && s.recvHead == s.q.head % |wrs|
    && |s.q.inlr| <= |wrs| && forall i :: 0 <= i < |s.q.inlr| ==> s.q.inlr[i] == BuffersOf(wrs[i])
  }

  lemma {:induction false} PutAllSlots(q: Rq, wrs: seq<Wr>)
    requires |q.wqes| > 0 && q.head == 0 && |wrs| <= |q.wqes|
    ensures PutAll(q, wrs).wqes == wrs + q.wqes[|wrs|..]
  {
    hide SetBuffers;
    if wrs != [] {
      PutAllSlots(q, wrs[..|wrs| - 1]);
      Modular.Unique(|q.wqes|, |wrs| - 1, 0, |wrs| - 1);
    }
  }

  lemma {:induction false} PutAllBuffers(q: Rq, wrs: seq<Wr>)
    requires |q.wqes| > 0 && q.head == 0 && |wrs| <= |q.wqes|
    ensures forall i :: 0 <= i < |wrs| && i < |q.inlr| ==> PutAll(q, wrs).inlr[i] == BuffersOf(wrs[i])
  {
    hide BuffersOf;
    if wrs != [] {
      PutAllBuffers(q, wrs[..|wrs| - 1]);
      Modular.Unique(|q.wqes|, |wrs| - 1, 0, |wrs| - 1);
    }
  }

  lemma FillEstablishes(q0: Rq, wrs: seq<Wr>)
    requires |wrs| > 0 && |q0.wqes| >= |wrs| && q0.head == q0.tail == 0
    ensures Filled(q0, wrs).q.wqes == wrs + q0.wqes[|wrs|..]
    ensures |q0.wqes| == |wrs| >= |q0.inlr| ==> InStep(Filled(q0, wrs), wrs)
  {
    var c := Chain(wrs, 0, |wrs|);
    assert c == wrs by {
      forall i | 0 <= i < |wrs| ensures c[i] == wrs[i] { Modular.Unique(|wrs|, i, 0, i); }
    }
    PutAllSlots(q0, c);
    PutAllBuffers(q0, c);
    Modular.Unique(|wrs|, |wrs|, 1, 0);
  }

  /** Re-posting a request whose slot already holds it changes only the head. */
  lemma {:induction false} RepostIsHeadOnly(s: Side, wrs: seq<Wr>, n: nat)
    requires InStep(s, wrs)
    ensures PutAll(s.q, Chain(wrs, s.recvHead, n)) == s.q.(head := s.q.head + n)
  {
    hide BuffersOf;
    if n > 0 {
      RepostIsHeadOnly(s, wrs, n - 1);
      var c := Chain(wrs, s.recvHead, n);
      assert c[..n - 1] == Chain(wrs, s.recvHead, n - 1);
      Modular.AddMod(|wrs|, s.q.head, n - 1);
    }
  }

  lemma FastStep(s: Side, wrs: seq<Wr>, op: Op)
    requires InStep(s, wrs)
    ensures Slow(s, wrs, op).q == Fast(s.q, op) && InStep(Slow(s, wrs, op), wrs)
  {
    if op.Post? {
      RepostIsHeadOnly(s, wrs, op.n);
      Modular.AddMod(|wrs|, s.q.head, op.n);
    }
  }

  lemma {:induction false} RunsAgree(s: Side, wrs: seq<Wr>, ops: seq<Op>)
    requires InStep(s, wrs)
    ensures SlowRun(s, wrs, ops).q == FastRun(s.q, ops) && InStep(SlowRun(s, wrs, ops), wrs)
    decreases ops
  {
    if ops != [] {
      FastStep(s, wrs, ops[0]);
      RunsAgree(Slow(s, wrs, ops[0]), wrs, ops[1..]);
    }
  }

  /** With a queue of exactly the circle's depth, every schedule of posts and polls leaves the
      fast and the ordinary queue in the same state, and the next completion polled returns
      the request of index tail mod depth. */
  lemma FastRefinesSlow(q0: Rq, wrs: seq<Wr>, ops: seq<Op>)
    requires |q0.wqes| == |wrs| > 0 && |q0.inlr| <= |wrs| && q0.head == q0.tail == 0
    ensures var slow, fast := SlowRun(Filled(q0, wrs), wrs, ops).q, FastRun(Filled(q0, wrs).q, ops);
            && fast == slow
            && |fast.wqes| == |wrs|
            && fast.wqes[fast.tail % |wrs|].wrId == wrs[fast.tail % |wrs|].wrId
  {
    FillEstablishes(q0, wrs);
    RunsAgree(Filled(q0, wrs), wrs, ops);
  }

  /** With a larger queue the fast path does not agree: after one poll and one post, the slot
      after the circle's last still holds what was there before any RECV was posted. */
  lemma {:induction false} FastNeedsEqualDepth(q0: Rq, wrs: seq<Wr>)
    requires |q0.wqes| > |wrs| > 0 && q0.head == q0.tail == 0 && q0.wqes[|wrs|] != wrs[0]
    ensures var ops := [Poll, Post(1)];
            && AllowedRun(Filled(q0, wrs).q, |wrs|, ops)
            && FastRun(Filled(q0, wrs).q, ops).wqes[|wrs|] == q0.wqes[|wrs|]
            && SlowRun(Filled(q0, wrs), wrs, ops).q.wqes[|wrs|] == wrs[0]
  {
    FillEstablishes(q0, wrs);
    var s := Filled(q0, wrs);
    Modular.Unique(|wrs|, |wrs|, 1, 0);
    Modular.Unique(|wrs|, 0, 0, 0);
    Modular.Unique(|q0.wqes|, |wrs|, 0, |wrs|);
    var ops := [Poll, Post(1)];
    assert ops[1..] == [Post(1)] && ops[1..][1..] == [];
    var t := Slow(s, wrs, Poll);
    var c := Chain(wrs, t.recvHead, 1);
    assert c[0] == wrs[0] && c[..0] == [];
  }

  /** The two paths leave the same queue, whatever the slots held before and in every
      schedule the RPC layer may follow. */
  ghost predicate PathsAgree(slots: nat, wrs: seq<Wr>)
    requires |wrs| > 0
  {
    forall q0, ops :: Fresh(q0, slots) && AllowedRun(Filled(q0, wrs).q, |wrs|, ops) ==>
                        FastRun(Filled(q0, wrs).q, ops) == SlowRun(Filled(q0, wrs), wrs, ops).q
  }

  predicate Fresh(q0: Rq, slots: nat) {
    |q0.wqes| == slots > 0 && |q0.inlr| <= slots && q0.head == q0.tail == 0
  }

  /** The fast path is right exactly if the queue has as many slots as there are requests. */
  lemma FastRightExactly(slots: nat, wrs: seq<Wr>)
    requires 0 < |wrs| <= slots
    ensures PathsAgree(slots, wrs) <==> slots == |wrs|
  {
    if slots == |wrs| {
      forall q0, ops | Fresh(q0, slots)
        ensures FastRun(Filled(q0, wrs).q, ops) == SlowRun(Filled(q0, wrs), wrs, ops).q
      {
        FastRefinesSlow(q0, wrs, ops);
      }
    } else {
      var q0 := Rq(seq(slots, _ => Wr(wrs[0].wrId + 1, [])), [], 0, 0, 0);
      FastNeedsEqualDepth(q0, wrs);
      assert Fresh(q0, slots);
    }
  }
}
