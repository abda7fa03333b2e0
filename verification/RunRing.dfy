/** The poll loop of the master coroutine: completions are processed in order, and the
    coroutines whose batch is complete are linked into a ring that starts and ends at the
    master. */
module RunRing {
  import opened Messages
  import opened Batches

  const MASTER: nat := 0

  /** A polled completion: a response to one of our coroutines, or a request from machine mn
      together with what its handlers answer. */
  datatype Completion =
    | Response(coro: nat, entries: seq<Entry>)
    | Request(mn: nat, coro: nat, reqs: seq<Entry>, results: seq<Result>)

  /** A coalesced response to send. */
  datatype Outgoing = Outgoing(mn: nat, coro: nat, entries: seq<Entry>)

  predicate ValidCompletion(n: nat, w: Completion) {
    match w
    case Response(coro, entries) => MASTER < coro < n && entries != []
    case Request(_, _, reqs, results) => |reqs| == |results|
  }

  predicate AllValid(n: nat, ws: seq<Completion>) {
    forall i :: 0 <= i < |ws| ==> ValidCompletion(n, ws[i])
  }

  /** The batches after the given completions. */
  function After(bs: seq<Batch>, ws: seq<Completion>): (r: seq<Batch>)
    requires AllValid(|bs|, ws)
    ensures |r| == |bs|
  {
    if ws == [] then bs
    else
      var prev, w := After(bs, ws[..|ws| - 1]), ws[|ws| - 1];
      if w.Response? then prev[w.coro := Absorb(prev[w.coro], w.entries)] else prev
  }

  /** The coroutines whose last response is among the completions, in order of completion. */
  function Completed(bs: seq<Batch>, ws: seq<Completion>): seq<nat>
    requires AllValid(|bs|, ws)
  {
    if ws == [] then []
    else
      var prev, w := Completed(bs, ws[..|ws| - 1]), ws[|ws| - 1];
      if w.Response? && After(bs, ws)[w.coro].done == |After(bs, ws)[w.coro].slots| then prev + [w.coro] else prev
  }

  /** The responses to send, one per request message, in order. */
  function Replies(ws: seq<Completion>): seq<Outgoing>
    requires forall i :: 0 <= i < |ws| && ws[i].Request? ==> |ws[i].reqs| == |ws[i].results|
  {
    if ws == [] then []
    else
      var prev, w := Replies(ws[..|ws| - 1]), ws[|ws| - 1];
      if w.Request? then prev + [Outgoing(w.mn, w.coro, Respond(w.reqs, w.results))] else prev
  }

  predicate Distinct(cs: seq<nat>) {
    forall i, j :: 0 <= i < j < |cs| ==> cs[i] != cs[j]
  }

  /** A completed coroutine has all its responses, and is listed once. */
  lemma {:induction false} CompletedOnce(bs: seq<Batch>, ws: seq<Completion>)
    requires AllValid(|bs|, ws)
    ensures Distinct(Completed(bs, ws))
    ensures forall c :: c in Completed(bs, ws) ==>
              MASTER < c < |bs| && After(bs, ws)[c].done >= |After(bs, ws)[c].slots|
  {
    if ws != [] {
      var rest, w := ws[..|ws| - 1], ws[|ws| - 1];
      CompletedOnce(bs, rest);
      var prev := Completed(bs, rest);
      if w.Response? && w.coro in prev {
        assert After(bs, ws)[w.coro].done > |After(bs, ws)[w.coro].slots|;
      }
      assert Completed(bs, ws) == prev || (w.coro !in prev && Completed(bs, ws) == prev + [w.coro]);
    }
  }

  /** Without surplus responses, the coroutines listed are exactly those that were waiting
      before and have all their responses now. */
  lemma {:induction false} CompletedExactly(bs: seq<Batch>, ws: seq<Completion>, c: nat)
    requires AllValid(|bs|, ws) && c < |bs| && bs[c].done < |bs[c].slots|
    requires After(bs, ws)[c].done <= |bs[c].slots|
    ensures |After(bs, ws)[c].slots| == |bs[c].slots|
    ensures c in Completed(bs, ws) <==> After(bs, ws)[c].done == |After(bs, ws)[c].slots|
  {
    if ws != [] {
      CompletedExactly(bs, ws[..|ws| - 1], c);
    }
  }

  /** next links the master to the listed coroutines, one after the other, and the last of
      them to `end`. */
  ghost predicate Linked(next: seq<nat>, cs: seq<nat>, end: nat) {
    && |next| > 0
    && (forall i :: 0 <= i < |cs| ==> cs[i] < |next|)
    && next[MASTER] == (if cs == [] then end else cs[0])
    && (forall i :: 0 <= i < |cs| ==> next[cs[i]] == Following(cs, i, end))
  }

  function Following(cs: seq<nat>, i: nat, end: nat): nat {
    if i + 1 < |cs| then cs[i + 1] else end
  }

  /** Where k hops from the master lead. */
  function Hop(next: seq<nat>, k: nat): nat
    requires |next| > 0
  {
    if k == 0 then MASTER
    else
      var at := Hop(next, k - 1);
      if at < |next| then next[at] else MASTER
  }

  /** The ring visits the master, then exactly the listed coroutines in order, and is back. */
  lemma {:induction false} RingVisits(next: seq<nat>, cs: seq<nat>, k: nat)
    requires Linked(next, cs, MASTER) && k <= |cs| + 1
    ensures Hop(next, k) == if 1 <= k <= |cs| then cs[k - 1] else MASTER
  {
    if k > 0 {
      RingVisits(next, cs, k - 1);
      if k >= 2 {
        assert cs[k - 2] < |next| && next[cs[k - 2]] == Following(cs, k - 2, MASTER);
      }
    }
  }

  lemma LinkOne(next: seq<nat>, cs: seq<nat>, cur: nat, c: nat)
    requires |next| > 0 && cur == (if cs == [] then MASTER else cs[|cs| - 1])
    requires Distinct(cs + [c]) && MASTER !in cs + [c] && c < |next| && cur < |next|
    requires Linked(next, cs, next[cur])
    ensures Linked(next[cur := c], cs + [c], next[cur := c][c])
  {
    var more, next' := cs + [c], next[cur := c];
    assert more[|cs|] == c && forall i :: 0 <= i < |cs| ==> more[i] == cs[i];
    forall i | 0 <= i < |more| ensures more[i] < |next'| && next'[more[i]] == Following(more, i, next'[c]) {
      if i < |cs| - 1 {
        assert more[i] != more[|cs| - 1];
        assert next'[more[i]] == next[cs[i]] == Following(cs, i, next[cur]);
      } else if i == |cs| {
        assert more[i] == c;
      }
    }
  }

  class Master {
    var batches: array<Batch>
    var nextCoro: array<nat>
    var outgoing: seq<Outgoing>
    var recvsToPost: nat
    const recvSlack: nat

    ghost predicate Valid()
      reads this
    {
      batches.Length == nextCoro.Length > 0
    }

    /** One response: filed, counted, and the coroutine linked in if it was the last. */
    method TakeResponse(coro: nat, entries: seq<Entry>, cur: nat) returns (cur': nat)
      requires Valid() && coro < batches.Length && cur < nextCoro.Length
      modifies batches, nextCoro
      ensures batches[..] == old(batches[..])[coro := Absorb(old(batches[coro]), entries)]
      ensures var b := Absorb(old(batches[coro]), entries);
              if b.done == |b.slots| then cur' == coro && nextCoro[..] == old(nextCoro[..])[cur := coro]
              else cur' == cur && nextCoro[..] == old(nextCoro[..])
    {
      batches[coro] := Absorb(batches[coro], entries);
      cur' := cur;
      if batches[coro].done == |batches[coro].slots| {
        nextCoro[cur] := coro;
        cur' := coro;
      }
    }

    /** poll_comps on the completions of one poll. */
    method PollComps(ws: seq<Completion>) returns (reposted: nat)
      requires Valid() && AllValid(batches.Length, ws)
      modifies this`outgoing, this`recvsToPost, batches, nextCoro
      ensures batches[..] == After(old(batches[..]), ws)
      ensures Linked(nextCoro[..], Completed(old(batches[..]), ws), MASTER)
      ensures Distinct(Completed(old(batches[..]), ws)) && MASTER !in Completed(old(batches[..]), ws)
      ensures outgoing == if ws == [] then old(outgoing) else Replies(ws)
      // RECVs consumed are posted again all at once, when there are enough of them
      ensures recvsToPost + reposted == old(recvsToPost) + |ws| && (reposted == 0 || recvsToPost == 0)
      ensures ws != [] && recvSlack > 0 ==> recvsToPost < recvSlack
      ensures reposted > 0 ==> reposted >= recvSlack
    {
      reposted := 0;
      ghost var bs := batches[..];
      CompletedOnce(bs, ws);
      if |ws| == 0 {
        nextCoro[MASTER] := MASTER;
        return;
      }
      PollStart(bs, nextCoro[..], ws);
      hide Polled, After, Completed, Replies, Absorb, Linked, Distinct;
      var cur: nat := MASTER;
      outgoing := [];
      for i := 0 to |ws|
        invariant recvsToPost == old(recvsToPost) && cur < nextCoro.Length
        invariant Polled(bs, ws[..i], batches[..], nextCoro[..], cur, outgoing)
      {
        assert ws[..i + 1][..i] == ws[..i];
        PollNext(bs, ws[..i + 1], batches[..], nextCoro[..], cur, outgoing);
        var w := ws[i];
        if w.Response? {
          cur := TakeResponse(w.coro, w.entries, cur);
        } else {
          outgoing := outgoing + [Outgoing(w.mn, w.coro, Respond(w.reqs, w.results))];
        }
      }
      assert ws[..|ws|] == ws;
      recvsToPost := recvsToPost + |ws|;
      if recvsToPost >= recvSlack {
        reposted := recvsToPost;
        recvsToPost := 0;
      }
      CloseRing(bs, ws, batches[..], nextCoro[..], cur, outgoing);
      nextCoro[cur] := MASTER;
    }
  }

  /** The state of the poll loop after the given completions; `cur` is the coroutine linked
      last, or the master. */
  ghost predicate Polled(bs: seq<Batch>, ws: seq<Completion>, batches: seq<Batch>,
                         next: seq<nat>, cur: nat, out: seq<Outgoing>) {
    && AllValid(|bs|, ws) && |next| == |bs| && cur < |next|
    && batches == After(bs, ws) && out == Replies(ws)
    && var cs := Completed(bs, ws);
    && cur == (if cs == [] then MASTER else cs[|cs| - 1]) && Linked(next, cs, next[cur])
  }

  lemma PollStart(bs: seq<Batch>, next: seq<nat>, ws: seq<Completion>)
    requires AllValid(|bs|, ws) && |next| == |bs| > 0
    ensures Polled(bs, ws[..0], bs, next, MASTER, [])
  {
  }

  lemma PollNext(bs: seq<Batch>, ws: seq<Completion>, batches: seq<Batch>, next: seq<nat>, cur: nat, out: seq<Outgoing>)
    requires ws != [] && AllValid(|bs|, ws) && |bs| == |batches| && cur < |next|
    requires Polled(bs, ws[..|ws| - 1], batches, next, cur, out)
    ensures var w := ws[|ws| - 1];
            if w.Response?
            then
              var b := Absorb(batches[w.coro], w.entries);
              var done := b.done == |b.slots|;
              Polled(bs, ws, batches[w.coro := b],
                     if done then next[cur := w.coro] else next, if done then w.coro else cur, out)
            else Polled(bs, ws, batches, next, cur, out + [Outgoing(w.mn, w.coro, Respond(w.reqs, w.results))])
  {
    hide Linked, Distinct;
    var w, cs := ws[|ws| - 1], Completed(bs, ws[..|ws| - 1]);
    CompletedOnce(bs, ws);
    if w.Response? && Completed(bs, ws) == cs + [w.coro] { LinkOne(next, cs, cur, w.coro); }
  }

  lemma CloseRing(bs: seq<Batch>, ws: seq<Completion>, batches: seq<Batch>, next: seq<nat>, cur: nat,
                  out: seq<Outgoing>)
    requires Polled(bs, ws, batches, next, cur, out)
    ensures batches == After(bs, ws) && out == Replies(ws)
    ensures Linked(next[cur := MASTER], Completed(bs, ws), MASTER)
  {
    CompletedOnce(bs, ws);
    var cs := Completed(bs, ws);
    if cs != [] { assert cs[|cs| - 1] in cs; }
  }
}
