/** Selective signalling of SENDs: one work request in each window asks for a completion, and
    the sender waits for that completion only when it has filled the window. */
module Signalling {
  import Modular

  const UNSIG_BATCH: nat := 128
  const MAX_POSTLIST: nat := 64
  const SQ_DEPTH: nat := 256
  const RQ_DEPTH: nat := 2048

  datatype Config = Config(numQps: nat, postlist: nat)

  predicate ValidConfig(cfg: Config) {
    cfg.numQps >= 1 && 1 <= cfg.postlist <= MAX_POSTLIST
  }

  /** One send queue. Work requests are numbered from 0: `next` were assembled, `posted` of
      them handed to the NIC, and those below `retired` are known to have completed.
      `pending` is nb_pending. */
  datatype Qp = Qp(next: nat, posted: nat, retired: nat, pending: nat)

  /** `assembled` requests of the postlist under construction belong to queue `active`.
      `users` lists the non-inline responses in order, as queue and number; `flags` says of
      every request, in order, whether it was signalled. */
  datatype Sender = Sender(qps: seq<Qp>, active: nat, assembled: nat, users: seq<(nat, nat)>, flags: seq<bool>)

  /** Assemble one work request, a large response or not; or hand over the postlist. */
  datatype Step = Assemble(nonInline: bool) | Post

  predicate Shape(cfg: Config, s: Sender) {
    |s.qps| == cfg.numQps && s.active < cfg.numQps
  }

  predicate Enabled(cfg: Config, s: Sender, st: Step) {
    match st
    case Assemble(_) => s.assembled < cfg.postlist
    case Post => s.assembled > 0
  }

  /** Whether set_flags asks for a completion, and whether it polls for one. */
  predicate Signals(q: Qp) { q.pending == 0 }
  predicate Polls(q: Qp) { q.pending == UNSIG_BATCH - 1 }

  /** The request whose completion set_flags waits for: the signalled one of the window. */
  function Awaited(q: Qp): int { q.next - (UNSIG_BATCH - 1) }

  /** set_flags: completions come in order, so the awaited one retires all up to it. */
  function Flagged(q: Qp): Qp
    requires Polls(q) ==> Awaited(q) >= 0
  {
    if Polls(q) then Qp(q.next + 1, q.posted, Awaited(q) + 1, 0)
    else q.(next := q.next + 1, pending := q.pending + 1)
  }

  /** The queue a step works on has a completion to wait for, if it waits. */
  predicate Ready(cfg: Config, s: Sender) {
    && Shape(cfg, s) && cfg.numQps > 0
    && (Polls(s.qps[s.active]) ==> Awaited(s.qps[s.active]) >= 0)
  }

  function Apply(cfg: Config, s: Sender, st: Step): (t: Sender)
    requires Ready(cfg, s)
    ensures Shape(cfg, t)
  {
    var q := s.qps[s.active];
    match st
    case Assemble(nonInline) =>
      Sender(s.qps[s.active := Flagged(q)], s.active, s.assembled + 1,
             if nonInline then s.users + [(s.active, q.next)] else s.users, s.flags + [Signals(q)])
    case Post =>
      s.(qps := s.qps[s.active := q.(posted := q.posted + s.assembled)],
         active := if s.active + 1 == cfg.numQps then 0 else s.active + 1, assembled := 0)
  }

  /** What is known of a queue with `open` requests in the postlist under construction. */
  predicate QpOk(q: Qp, open: nat) {
    && q.pending == q.next % UNSIG_BATCH
    && q.posted + open == q.next
    && q.retired == if q.next < UNSIG_BATCH then 0 else UNSIG_BATCH * (q.next / UNSIG_BATCH - 1) + 1
  }

  function Open(s: Sender, i: nat): nat {
    if i == s.active then s.assembled else 0
  }

  ghost predicate Inv(cfg: Config, s: Sender) {
    && ValidConfig(cfg) && Shape(cfg, s) && s.assembled <= cfg.postlist
    && (forall i :: 0 <= i < |s.qps| ==> QpOk(s.qps[i], Open(s, i)))
    && (forall j :: 0 <= j < |s.users| ==> s.users[j].0 < cfg.numQps && s.users[j].1 < s.qps[s.users[j].0].next)
    && (forall j, k :: 0 <= j < k < |s.users| && s.users[j].0 == s.users[k].0 ==> s.users[j].1 < s.users[k].1)
  }

  function Start(cfg: Config): Sender {
    Sender(seq(cfg.numQps, _ => Qp(0, 0, 0, 0)), 0, 0, [], [])
  }

  lemma FlaggedKeeps(q: Qp, open: nat)
    requires QpOk(q, open)
    ensures Polls(q) ==> Awaited(q) >= 0
    ensures QpOk(Flagged(q), open + 1)
  {
    Modular.Successor(UNSIG_BATCH, q.next);
  }

  lemma StepKeeps(cfg: Config, s: Sender, st: Step)
    requires Inv(cfg, s) && Enabled(cfg, s, st)
    ensures Ready(cfg, s) && Inv(cfg, Apply(cfg, s, st))
  {
    FlaggedKeeps(s.qps[s.active], s.assembled);
    hide QpOk;
    assert st.Post? ==> QpOk(Apply(cfg, s, st).qps[s.active], 0) by { PostKeeps(s.qps[s.active], s.assembled); }
  }

  lemma PostKeeps(q: Qp, open: nat)
    requires QpOk(q, open)
    ensures QpOk(q.(posted := q.posted + open), 0)
  {
  }

  ghost predicate Run(cfg: Config, s: Sender, steps: seq<Step>, t: Sender)
    decreases steps
  {
    if steps == [] then s == t
    else
      && Ready(cfg, s) && Enabled(cfg, s, steps[0]) && Run(cfg, Apply(cfg, s, steps[0]), steps[1..], t)
  }

  lemma {:induction false} RunKeeps(cfg: Config, s: Sender, steps: seq<Step>, t: Sender)
    requires Inv(cfg, s) && Run(cfg, s, steps, t)
    ensures Inv(cfg, t)
    decreases steps
  {
    if steps != [] {
      StepKeeps(cfg, s, steps[0]);
      RunKeeps(cfg, Apply(cfg, s, steps[0]), steps[1..], t);
    }
  }

  /** In every run: a request waited for was signalled and has been posted, so the wait ends;
      and fewer requests than the send queue holds are posted and not retired. */
  lemma SignallingSafe(cfg: Config, steps: seq<Step>, t: Sender, i: nat)
    requires ValidConfig(cfg) && Run(cfg, Start(cfg), steps, t) && i < cfg.numQps
    ensures |t.qps| == cfg.numQps
    ensures var q := t.qps[i];
            && q.retired <= q.posted && q.posted - q.retired < SQ_DEPTH
            && (i == t.active && t.assembled < cfg.postlist && Polls(q) ==>
                  0 <= Awaited(q) < q.posted && Awaited(q) % UNSIG_BATCH == 0 && q.retired <= Awaited(q))
  {
    RunKeeps(cfg, Start(cfg), steps, t);
    assert QpOk(t.qps[i], Open(t, i));
  }

  lemma RetiredClose(q: Qp, open: nat)
    requires QpOk(q, open)
    ensures q.next - q.retired < 2 * UNSIG_BATCH
  {
  }

  lemma {:induction false} RunConcat(cfg: Config, s: Sender, a: seq<Step>, t: Sender, b: seq<Step>, u: Sender)
    requires Run(cfg, s, a, t) && Run(cfg, t, b, u)
    ensures Run(cfg, s, a + b, u)
    decreases a
  {
    if a == [] {
      assert a + b == b;
    } else {
      RunConcat(cfg, Apply(cfg, s, a[0]), a[1..], t, b, u);
      assert (a + b)[0] == a[0] && (a + b)[1..] == a[1..] + b;
    }
  }

  /** The work requests a batch must produce: one per message, in order, with posts between. */
  function Assembled(steps: seq<Step>): seq<bool> {
    if steps == [] then []
    else
      var last := steps[|steps| - 1];
      Assembled(steps[..|steps| - 1]) + (if last.Assemble? then [last.nonInline] else [])
  }

  /** The send loops of the RPC layer; the NIC's side of the queues is ghost. */
  class SendSide {
    const cfg: Config
    var nbPending: array<nat>
    var activeQp: nat
    var nonInlineIndex: nat
    ghost var sender: Sender

    ghost predicate Reflects()
      reads this, nbPending
    {
      && Inv(cfg, sender) && nbPending.Length == cfg.numQps && activeQp == sender.active
      && nonInlineIndex == |sender.users| % RQ_DEPTH
      && forall i :: 0 <= i < nbPending.Length ==> nbPending[i] == sender.qps[i].pending
    }

    /** set_flags for one more message on the active queue, and for a large response the next
        of the non-inline buffers. */
    method AssembleOne(large: bool) returns (signal: bool)
      requires Reflects() && sender.assembled < cfg.postlist
      modifies this`sender, this`nonInlineIndex, nbPending
      ensures Reflects() && sender.assembled == old(sender.assembled) + 1
      ensures sender.flags == old(sender.flags) + [signal]
      ensures var q := old(sender.qps[sender.active]);
              && signal == Signals(q)
              && (Polls(q) ==> 0 <= Awaited(q) < q.posted)
              && sender == Apply(cfg, old(sender), Assemble(large))
    {
      StepKeeps(cfg, sender, Assemble(large));
      assert QpOk(sender.qps[activeQp], sender.assembled);
      Modular.Successor(RQ_DEPTH, |sender.users|);
      sender := Apply(cfg, sender, Assemble(large));
      hide QpOk;
      if large {
        nonInlineIndex := if nonInlineIndex + 1 == RQ_DEPTH then 0 else nonInlineIndex + 1;
      }
      signal := nbPending[activeQp] == 0;
      if nbPending[activeQp] == UNSIG_BATCH - 1 {
        nbPending[activeQp] := 0;
      } else {
        nbPending[activeQp] := nbPending[activeQp] + 1;
      }
    }

    /** The postlist handed over, and the next queue made active. */
    method PostAll()
      requires Reflects() && sender.assembled > 0
      modifies this`sender, this`activeQp
      ensures Reflects() && sender.assembled == 0 && sender.flags == old(sender.flags)
      ensures Ready(cfg, old(sender)) && sender == Apply(cfg, old(sender), Post)
    {
      StepKeeps(cfg, sender, Post);
      hide QpOk;
      sender := Apply(cfg, sender, Post);
      activeQp := if activeQp + 1 == cfg.numQps then 0 else activeQp + 1;
    }

    /** send_reqs and send_resps: `large` says which messages are responses that do not fit
        inline. */
    method SendBatch(large: seq<bool>) returns (signalled: seq<bool>, ghost steps: seq<Step>)
      requires Reflects() && sender.assembled == 0
      modifies this, nbPending
      ensures nbPending == old(nbPending) && Reflects() && sender.assembled == 0
      ensures Run(cfg, old(sender), steps, sender) && Assembled(steps) == large
      ensures |signalled| == |large| && sender.flags == old(sender.flags) + signalled
    {
      hide Inv, Apply, Assembled, Polls, Awaited, Shape;
      signalled, steps := [], [];
      var wrI := 0;
      assert Assembled([]) == large[..0] by { AssembledNone(); }
      assert 0 < cfg.postlist by { PostlistPositive(cfg, sender); }
      for i := 0 to |large|
        invariant nbPending == old(nbPending) && Reflects() && sender.assembled == wrI < cfg.postlist
        invariant i == |large| ==> wrI == 0
        invariant Run(cfg, old(sender), steps, sender) && Assembled(steps) == large[..i]
        invariant |signalled| == i && sender.flags == old(sender.flags) + signalled
      {
        RunSnoc(cfg, old(sender), steps, sender, Assemble(large[i]));
        var flag := AssembleOne(large[i]);
        signalled := signalled + [flag];
        steps := steps + [Assemble(large[i])];
        wrI := wrI + 1;
        if wrI == cfg.postlist || i == |large| - 1 {
          RunSnoc(cfg, old(sender), steps, sender, Post);
          PostAll();
          steps := steps + [Post];
          wrI := 0;
        }
      }
    }
  }

  lemma AssembledNone()
    ensures Assembled([]) == []
  {
  }

  lemma PostlistPositive(cfg: Config, s: Sender)
    requires Inv(cfg, s)
    ensures cfg.postlist > 0
  {
  }

  lemma {:induction false} RunSnoc(cfg: Config, s: Sender, steps: seq<Step>, t: Sender, st: Step)
    requires Run(cfg, s, steps, t) && Inv(cfg, t) && Enabled(cfg, t, st)
    ensures Ready(cfg, t) && Run(cfg, s, steps + [st], Apply(cfg, t, st))
    ensures Assembled(steps + [st]) == Assembled(steps) + (if st.Assemble? then [st.nonInline] else [])
  {
    StepKeeps(cfg, t, st);
    assert [st][1..] == [] && (steps + [st])[..|steps|] == steps;
    RunConcat(cfg, s, steps, t, [st], Apply(cfg, t, st));
  }
}
