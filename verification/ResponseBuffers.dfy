/** The buffers of large responses: the n-th one uses buffer n mod RQ_DEPTH. Whether that
    buffer is free again is a question of how far other queues can run ahead. */
module ResponseBuffers {
  import opened Signalling
  import Modular

  /** The SEND that last used the buffer of the next large response has completed. */
  ghost predicate NextBufferFree(t: Sender) {
    forall j :: 0 <= j < |t.users| && j % RQ_DEPTH == |t.users| % RQ_DEPTH ==>
      t.users[j].0 < |t.qps| && t.users[j].1 < t.qps[t.users[j].0].retired
  }

  /** The most requests the other queues post for each postlist of one queue. */
  function Others(cfg: Config): nat
    requires cfg.numQps >= 1
  {
    (cfg.numQps - 1) * cfg.postlist
  }

  // Safety: how many large responses can follow one that is not retired.

  /** Hops from queue q to the active one, in posting order. */
  function Ahead(cfg: Config, s: Sender, q: nat): int {
    if s.active >= q then s.active - q else s.active + cfg.numQps - q
  }

  /** At most this many requests are assembled from some request of a queue on, when c of
      them are its own, `posted` of those are posted, and the active queue is d hops ahead.
      Each postlist of the queue lets every other queue post once; `others` is what they can
      post together. */
  function Limit(others: nat, postlist: nat, c: int, posted: int, d: int, assembled: nat): int {
    if d == 0 then c + (if posted > 0 then others * posted else 0)
    else c + others * (c - 1) + postlist * (d - 1) + assembled
  }

  function Bound(cfg: Config, s: Sender, q: nat, u: nat): int
    requires cfg.numQps >= 1 && q < |s.qps|
  {
    Limit(Others(cfg), cfg.postlist, s.qps[q].next - u, s.qps[q].posted - u, Ahead(cfg, s, q), s.assembled)
  }

  /** The responses from the j-th on stay within the bound for the j-th. */
  ghost predicate Paced(cfg: Config, s: Sender) {
    && Inv(cfg, s)
    && forall j :: 0 <= j < |s.users| ==> |s.users| - j <= Bound(cfg, s, s.users[j].0, s.users[j].1)
  }

  lemma Times(m: nat, a: int, b: int)
    requires a <= b
    ensures m * a <= m * b
  {
  }

  lemma OwnPostLimit(others: nat, postlist: nat, c: int, posted: int, assembled: nat)
    requires c > 0 && assembled > 0 && posted + assembled == c
    ensures Limit(others, postlist, c, posted, 0, assembled) <= Limit(others, postlist, c, c, 1, 0)
    ensures others == 0 ==> Limit(others, postlist, c, posted, 0, assembled) == Limit(others, postlist, c, c, 0, 0)
  {
    if posted > 0 { Times(others, posted, c - 1); }
    Times(others, 0, c - 1);
  }

  lemma OtherPostLimit(n: nat, postlist: nat, c: int, d: int, assembled: nat)
    requires n > 1 && c > 0 && 0 < d < n && assembled <= postlist
    ensures var others := (n - 1) * postlist;
            Limit(others, postlist, c, c, d, assembled) <=
            Limit(others, postlist, c, c, if d == n - 1 then 0 else d + 1, 0)
  {
    var others := (n - 1) * postlist;
    assert postlist * d == postlist * (d - 1) + postlist;
    if d == n - 1 { assert others * c == others * (c - 1) + others; }
  }

  lemma BoundPost(cfg: Config, s: Sender, q: nat, u: nat)
    requires Inv(cfg, s) && Enabled(cfg, s, Post) && q < |s.qps| && u < s.qps[q].next
    requires Ready(cfg, s) && Inv(cfg, Apply(cfg, s, Post))
    ensures Bound(cfg, s, q, u) <= Bound(cfg, Apply(cfg, s, Post), q, u)
  {
    hide Limit;
    var t, n := Apply(cfg, s, Post), cfg.numQps;
    assert QpOk(s.qps[q], Open(s, q)) && QpOk(t.qps[q], Open(t, q));
    var c, d := s.qps[q].next - u, Ahead(cfg, s, q);
    if d == 0 {
      OwnPostLimit(Others(cfg), cfg.postlist, c, s.qps[q].posted - u, s.assembled);
    } else {
      OtherPostLimit(n, cfg.postlist, c, d, s.assembled);
    }
  }

  lemma AssembleLimit(others: nat, postlist: nat, c: int, posted: int, d: int, assembled: nat)
    ensures Limit(others, postlist, if d == 0 then c + 1 else c, posted, d, assembled + 1)
            == Limit(others, postlist, c, posted, d, assembled) + 1
  {
  }

  lemma BoundAssemble(cfg: Config, s: Sender, st: Step, q: nat, u: nat)
    requires Inv(cfg, s) && Ready(cfg, s) && st.Assemble? && q < |s.qps|
    ensures Bound(cfg, Apply(cfg, s, st), q, u) == Bound(cfg, s, q, u) + 1
  {
    hide QpOk, Limit, Others;
    var d := Ahead(cfg, s, q);
    AssembleLimit(Others(cfg), cfg.postlist, s.qps[q].next - u, s.qps[q].posted - u, d, s.assembled);
  }

  lemma PacedStep(cfg: Config, s: Sender, st: Step)
    requires Paced(cfg, s) && Enabled(cfg, s, st)
    ensures Ready(cfg, s) && Paced(cfg, Apply(cfg, s, st))
  {
    StepKeeps(cfg, s, st);
    hide QpOk;
    var t := Apply(cfg, s, st);
    forall j | 0 <= j < |t.users| ensures |t.users| - j <= Bound(cfg, t, t.users[j].0, t.users[j].1) {
      var (q, u) := t.users[j];
      if j < |s.users| {
        assert s.users[j] == (q, u);
        if st.Post? { BoundPost(cfg, s, q, u); } else { BoundAssemble(cfg, s, st, q, u); }
      } else {
        NewUser(cfg, s, st);
      }
    }
  }

  lemma NewUser(cfg: Config, s: Sender, st: Step)
    requires Inv(cfg, s) && Ready(cfg, s) && st.Assemble?
    ensures Bound(cfg, Apply(cfg, s, st), s.active, s.qps[s.active].next) == 1
  {
    assert QpOk(s.qps[s.active], Open(s, s.active));
  }

  lemma {:induction false} PacedRun(cfg: Config, s: Sender, steps: seq<Step>, t: Sender)
    requires Paced(cfg, s) && Run(cfg, s, steps, t)
    ensures Paced(cfg, t)
    decreases steps
  {
    hide Paced, Enabled;
    if steps != [] {
      PacedStep(cfg, s, steps[0]);
      PacedRun(cfg, Apply(cfg, s, steps[0]), steps[1..], t);
    }
  }

  lemma LimitTotal(n: nat, postlist: nat, c: int, posted: int, d: int, assembled: nat)
    requires n >= 1 && c > 0 && posted <= c && 0 <= d < n && assembled <= postlist
    ensures var others := (n - 1) * postlist; Limit(others, postlist, c, posted, d, assembled) <= c + others * c
  {
    var others := (n - 1) * postlist;
    Times(others, 0, c);
    if d == 0 {
      Times(others, posted, c);
    } else {
      Times(postlist, d, n - 1);
      assert postlist * d == postlist * (d - 1) + postlist;
      assert others * c == others * (c - 1) + others;
    }
  }

  lemma SevenIsFew(c: nat, others: nat)
    requires c < 2 * UNSIG_BATCH && others <= 7
    ensures c + others * c < RQ_DEPTH
  {
    Times(c, others, 7);
  }

  /** A response with a whole lap of others behind it has been retired. */
  lemma LapRetired(cfg: Config, t: Sender, j: nat)
    requires Paced(cfg, t) && Others(cfg) <= 7 && j + RQ_DEPTH <= |t.users|
    ensures t.users[j].0 < |t.qps| && t.users[j].1 < t.qps[t.users[j].0].retired
  {
    var (q, u) := t.users[j];
    assert QpOk(t.qps[q], Open(t, q));
    assert Bound(cfg, t, q, u) >= RQ_DEPTH;
    RetiredClose(t.qps[q], Open(t, q));
    var c := t.qps[q].next - u;
    LimitTotal(cfg.numQps, cfg.postlist, c, t.qps[q].posted - u, Ahead(cfg, t, q), t.assembled);
    hide Limit, QpOk, Inv, Others;
    if c < 2 * UNSIG_BATCH { SevenIsFew(c, Others(cfg)); }
  }

  /** While the other queues post at most seven requests for each postlist of one queue, the
      buffer of the next large response is free in every state of every run. */
  lemma BufferFree(cfg: Config, steps: seq<Step>, t: Sender)
    requires ValidConfig(cfg) && Others(cfg) <= 7 && Run(cfg, Start(cfg), steps, t)
    ensures NextBufferFree(t)
  {
    PacedRun(cfg, Start(cfg), steps, t);
    hide Run, Paced, Others;
    forall j | 0 <= j < |t.users| && j % RQ_DEPTH == |t.users| % RQ_DEPTH
      ensures t.users[j].0 < |t.qps| && t.users[j].1 < t.qps[t.users[j].0].retired
    {
      if j + RQ_DEPTH > |t.users| { Modular.Apart(RQ_DEPTH, j, |t.users|); }
      LapRetired(cfg, t, j);
    }
  }

  // Failure: queue 0 posts single responses, every other queue full postlists of them.

  /** The next step of that schedule. */
  function Next(cfg: Config, s: Sender): Step {
    if s.assembled == (if s.active == 0 then 1 else cfg.postlist) then Post else Assemble(true)
  }

  /** Where the schedule stands: how many large responses there are, by round and place in
      the round; and the second one of queue 0 is the first response of the second round. */
  ghost predicate Scheduled(cfg: Config, s: Sender) {
    && Inv(cfg, s)
    && var round, r := 1 + Others(cfg), s.qps[0].next;
    && s.assembled <= (if s.active == 0 then 1 else cfg.postlist)
    && |s.users| == (if s.active == 0 && s.assembled == 0 then Rounds(r, round)
                     else Rounds(r - 1, round) + Place(cfg, s))
    && (|s.users| > round ==> s.users[round] == (0, 1))
  }

  /** The responses of r whole rounds. */
  function Rounds(r: int, round: nat): int { r * round }

  lemma RoundsNext(r: int, round: nat)
    ensures Rounds(r, round) == Rounds(r - 1, round) + round
  {
  }

  function Place(cfg: Config, s: Sender): int {
    if s.active == 0 then 1 else 1 + cfg.postlist * (s.active - 1) + s.assembled
  }

  lemma PlaceInRound(cfg: Config, s: Sender)
    requires Inv(cfg, s) && s.assembled <= (if s.active == 0 then 1 else cfg.postlist)
    ensures 1 <= Place(cfg, s) <= 1 + Others(cfg)
    ensures s.active > 0 && s.assembled < cfg.postlist ==> Place(cfg, s) <= Others(cfg)
    ensures s.active > 0 && s.active + 1 == cfg.numQps && s.assembled == cfg.postlist ==>
            Place(cfg, s) == 1 + Others(cfg)
  {
    if s.active > 0 {
      Times(cfg.postlist, s.active, cfg.numQps - 1);
      Times(cfg.postlist, 0, s.active - 1);
      assert cfg.postlist * s.active == cfg.postlist * (s.active - 1) + cfg.postlist;
    }
  }

  /** The first response of a round is on queue 0. */
  lemma RoundStart(round: nat, r: int, place: int)
    requires 1 <= place < round
    ensures Rounds(r - 1, round) + place != round
  {
    if r >= 2 { Times(round, 1, r - 1); } else { Times(round, r - 1, 0); }
  }

  lemma OneRound(round: nat, r: int)
    requires round > 0 && Rounds(r, round) == round
    ensures r == 1
  {
    if r >= 2 { Times(round, 2, r); } else if r <= 0 { Times(round, r, 0); }
  }

  lemma PlaceAssemble(cfg: Config, s: Sender)
    requires Ready(cfg, s)
    ensures Place(cfg, Apply(cfg, s, Assemble(true))) == if s.active == 0 then 1 else Place(cfg, s) + 1
  {
  }

  /** A round's first response, on queue 0. */
  lemma AssembleFirst(cfg: Config, s: Sender)
    requires Scheduled(cfg, s) && Ready(cfg, s) && s.active == 0 && s.assembled == 0
    requires Inv(cfg, Apply(cfg, s, Assemble(true)))
    ensures Scheduled(cfg, Apply(cfg, s, Assemble(true)))
  {
    PlaceAssemble(cfg, s);
    hide Inv, Rounds, Others, Place;
    if |s.users| == 1 + Others(cfg) { OneRound(1 + Others(cfg), s.qps[0].next); }
  }

  lemma AssembleRest(cfg: Config, s: Sender)
    requires Scheduled(cfg, s) && Ready(cfg, s) && s.active > 0 && s.assembled < cfg.postlist
    requires Inv(cfg, Apply(cfg, s, Assemble(true)))
    ensures Scheduled(cfg, Apply(cfg, s, Assemble(true)))
  {
    PlaceInRound(cfg, s);
    PlaceAssemble(cfg, s);
    RoundStart(1 + Others(cfg), s.qps[0].next, Place(cfg, s));
    hide Inv, Rounds, Others, Place;
    assert Apply(cfg, s, Assemble(true)).qps[0] == s.qps[0];
  }

  lemma ScheduledAssemble(cfg: Config, s: Sender)
    requires Scheduled(cfg, s) && cfg.numQps >= 2 && Next(cfg, s) == Assemble(true)
    ensures Ready(cfg, s) && Enabled(cfg, s, Assemble(true)) && Scheduled(cfg, Apply(cfg, s, Assemble(true)))
    ensures |Apply(cfg, s, Assemble(true)).users| == |s.users| + 1
  {
    StepKeeps(cfg, s, Assemble(true));
    hide QpOk, Rounds, Others, Place;
    if s.active == 0 { AssembleFirst(cfg, s); } else { AssembleRest(cfg, s); }
  }

  lemma PlacePost(cfg: Config, s: Sender)
    requires Ready(cfg, s) && Next(cfg, s) == Post
    ensures s.active + 1 < cfg.numQps ==> Place(cfg, Apply(cfg, s, Post)) == Place(cfg, s)
  {
    assert cfg.postlist * s.active == cfg.postlist * (s.active - 1) + cfg.postlist;
  }

  lemma ScheduledPost(cfg: Config, s: Sender)
    requires Scheduled(cfg, s) && cfg.numQps >= 2 && Next(cfg, s) == Post
    ensures Ready(cfg, s) && Enabled(cfg, s, Post) && Scheduled(cfg, Apply(cfg, s, Post))
    ensures Apply(cfg, s, Post).users == s.users && Next(cfg, Apply(cfg, s, Post)) == Assemble(true)
  {
    StepKeeps(cfg, s, Post);
    PlaceInRound(cfg, s);
    PlacePost(cfg, s);
    RoundsNext(s.qps[0].next, 1 + Others(cfg));
    hide QpOk, Place, Others, Rounds;
    assert Apply(cfg, s, Post).qps[0].next == s.qps[0].next;
  }

  /** The schedule reaches every number of large responses. */
  lemma {:induction false} Reach(cfg: Config, s: Sender, target: nat) returns (steps: seq<Step>, t: Sender)
    requires Scheduled(cfg, s) && cfg.numQps >= 2 && |s.users| <= target
    ensures Run(cfg, s, steps, t) && Scheduled(cfg, t) && |t.users| == target
    decreases target - |s.users|, if Next(cfg, s).Post? then 1 else 0
  {
    hide Scheduled;
    if |s.users| == target {
      steps, t := [], s;
    } else {
      var st := Next(cfg, s);
      if st.Post? { ScheduledPost(cfg, s); } else { ScheduledAssemble(cfg, s); }
      var more;
      more, t := Reach(cfg, Apply(cfg, s, st), target);
      steps := [st] + more;
      assert steps[0] == st && steps[1..] == more;
    }
  }

  /** While the first 2048 responses after (0, 1) are assembled, queue 0 does not get far
      enough to retire it. */
  lemma FewRounds(round: nat, r: int, place: int)
    requires round >= 9 && place >= 1 && Rounds(r - 1, round) + place <= round + RQ_DEPTH
    ensures r < 2 * UNSIG_BATCH
  {
    RoundsNext(r - 1, round);
    if r >= 2 * UNSIG_BATCH { Times(round, 254, r - 2); }
  }

  /** With more than seven, some run takes a buffer again while its SEND is not known to have
      completed. */
  lemma BufferTaken(cfg: Config) returns (steps: seq<Step>, t: Sender)
    requires ValidConfig(cfg) && Others(cfg) > 7
    ensures Run(cfg, Start(cfg), steps, t) && !NextBufferFree(t)
  {
    var round := 1 + Others(cfg);
    steps, t := Reach(cfg, Start(cfg), round + RQ_DEPTH);
    hide Run, Rounds, Others, Place;
    var r := t.qps[0].next;
    PlaceInRound(cfg, t);
    RoundsNext(r, round);
    FewRounds(round, r, if t.active == 0 && t.assembled == 0 then round else Place(cfg, t));
    assert QpOk(t.qps[0], Open(t, 0));
    Modular.NextLap(RQ_DEPTH, round);
    assert t.users[round] == (0, 1);
  }

  /** Exactly when the ring of response buffers is large enough: the other queues together
      may post no more than seven requests for each postlist of one queue. */
  lemma BufferFreeExactly(cfg: Config)
    requires ValidConfig(cfg)
    ensures (forall steps, t :: Run(cfg, Start(cfg), steps, t) ==> NextBufferFree(t))
            <==> (cfg.numQps - 1) * cfg.postlist <= 7
  {
    hide NextBufferFree, Run;
    if Others(cfg) <= 7 {
      forall steps, t | Run(cfg, Start(cfg), steps, t) ensures NextBufferFree(t) {
        BufferFree(cfg, steps, t);
      }
    } else {
      var steps, t := BufferTaken(cfg);
    }
  }
}
