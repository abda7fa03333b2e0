/** A coroutine's request batch: requests coalesced per remote machine, and the responses
    filed by sequence number. */
module Batches {
  import opened Messages

  const MAX_MSG_CORO: nat := 16

  /** A coalesced message under construction. */
  datatype Cmsg = Cmsg(mn: nat, entries: seq<Entry>)

  /** A request's response buffer. */
  datatype Slot = Empty | Filled(typ: byte, payload: seq<byte>)

  /** Where a request sits: which coalesced message, and which entry of it. */
  datatype Place = Place(cmsg: nat, entry: nat)

  /** `done` counts the responses received. */
  datatype Batch = Batch(cmsgs: seq<Cmsg>, places: seq<Place>, slots: seq<Slot>, done: nat)

  const EMPTY := Batch([], [], [], 0)

  /** The coalesced message for a machine, or the number of messages if there is none. */
  function Find(cmsgs: seq<Cmsg>, mn: nat): (k: nat)
    ensures k <= |cmsgs|
    ensures k < |cmsgs| ==> cmsgs[k].mn == mn
    ensures forall i :: 0 <= i < k ==> cmsgs[i].mn != mn
  {
    if cmsgs == [] then 0 else if cmsgs[0].mn == mn then 0 else 1 + Find(cmsgs[1..], mn)
  }

  /** A new request: appended to its machine's message, or to a fresh one. */
  function Add(b: Batch, mn: nat, typ: byte, payload: seq<byte>): Batch
    requires |b.slots| < 256
  {
    var k, e := Find(b.cmsgs, mn), Entry(typ, |b.slots|, payload);
    var entries := if k < |b.cmsgs| then b.cmsgs[k].entries else [];
    var cmsgs := if k < |b.cmsgs| then b.cmsgs[k := Cmsg(mn, entries + [e])] else b.cmsgs + [Cmsg(mn, [e])];
    Batch(cmsgs, b.places + [Place(k, |entries|)], b.slots + [Empty], b.done)
  }

  /** The entries of a response filed by sequence number. */
  function Fill(slots: seq<Slot>, entries: seq<Entry>): (r: seq<Slot>)
    ensures |r| == |slots|
  {
    if entries == [] then slots
    else
      var e, r := entries[|entries| - 1], Fill(slots, entries[..|entries| - 1]);
      if e.seqnum < |slots| then r[e.seqnum := Filled(e.typ, e.payload)] else r
  }

  /** A coalesced response taken in. */
  function Absorb(b: Batch, entries: seq<Entry>): Batch {
    b.(slots := Fill(b.slots, entries), done := b.done + |entries|)
  }

  predicate HasEntry(cmsgs: seq<Cmsg>, p: Place) {
    p.cmsg < |cmsgs| && p.entry < |cmsgs[p.cmsg].entries|
  }

  function EntryOf(cmsgs: seq<Cmsg>, p: Place): Entry
    requires HasEntry(cmsgs, p)
  {
    cmsgs[p.cmsg].entries[p.entry]
  }

  /** Sequence numbers and places determine each other. */
  ghost predicate Numbered(b: Batch) {
    && |b.places| == |b.slots|
    && (forall i :: 0 <= i < |b.slots| ==>
          HasEntry(b.cmsgs, b.places[i]) && EntryOf(b.cmsgs, b.places[i]).seqnum == i)
    && (forall p :: HasEntry(b.cmsgs, p) ==>
          EntryOf(b.cmsgs, p).seqnum < |b.slots| && b.places[EntryOf(b.cmsgs, p).seqnum] == p)
  }

  predicate OnePerMachine(cmsgs: seq<Cmsg>) {
    && (forall k :: 0 <= k < |cmsgs| ==> cmsgs[k].entries != [])
    && (forall i, k :: 0 <= i < k < |cmsgs| ==> cmsgs[i].mn != cmsgs[k].mn)
  }

  /** Requests in the messages of the given machines. */
  function Total(cmsgs: seq<Cmsg>, machines: set<nat>): nat {
    if cmsgs == [] then 0
    else Total(cmsgs[..|cmsgs| - 1], machines)
         + (if cmsgs[|cmsgs| - 1].mn in machines then |cmsgs[|cmsgs| - 1].entries| else 0)
  }

  function Machines(cmsgs: seq<Cmsg>): set<nat> {
    set k | 0 <= k < |cmsgs| :: cmsgs[k].mn
  }

  ghost predicate Wf(b: Batch) {
    Numbered(b) && OnePerMachine(b.cmsgs) && Total(b.cmsgs, Machines(b.cmsgs)) == |b.slots| <= MAX_MSG_CORO
  }

  lemma {:induction false} TotalSame(cmsgs: seq<Cmsg>, ms: set<nat>, ms': set<nat>)
    requires forall k :: 0 <= k < |cmsgs| ==> (cmsgs[k].mn in ms <==> cmsgs[k].mn in ms')
    ensures Total(cmsgs, ms) == Total(cmsgs, ms')
  {
    if cmsgs != [] { TotalSame(cmsgs[..|cmsgs| - 1], ms, ms'); }
  }

  lemma {:induction false} TotalNone(cmsgs: seq<Cmsg>)
    ensures Total(cmsgs, {}) == 0
  {
    if cmsgs != [] { TotalNone(cmsgs[..|cmsgs| - 1]); }
  }

  /** Taking one more machine into account adds its message's requests. */
  lemma {:induction false} TotalInsert(cmsgs: seq<Cmsg>, ms: set<nat>, k: nat)
    requires OnePerMachine(cmsgs) && k < |cmsgs| && cmsgs[k].mn !in ms
    ensures Total(cmsgs, ms + {cmsgs[k].mn}) == Total(cmsgs, ms) + |cmsgs[k].entries|
  {
    var n := |cmsgs| - 1;
    if k == n {
      TotalSame(cmsgs[..n], ms, ms + {cmsgs[k].mn});
    } else {
      TotalInsert(cmsgs[..n], ms, k);
    }
  }

  /** Only when every machine has answered does the count reach the whole. */
  lemma {:induction false} TotalComplete(cmsgs: seq<Cmsg>, ms: set<nat>)
    requires OnePerMachine(cmsgs)
    ensures Total(cmsgs, ms) <= Total(cmsgs, Machines(cmsgs))
    ensures Total(cmsgs, ms) == Total(cmsgs, Machines(cmsgs)) <==> Machines(cmsgs) <= ms
  {
    if cmsgs != [] {
      var rest, last := cmsgs[..|cmsgs| - 1], cmsgs[|cmsgs| - 1];
      TotalComplete(rest, ms);
      TotalSame(rest, Machines(cmsgs), Machines(rest));
      assert Machines(cmsgs) == Machines(rest) + {last.mn};
    }
  }

  lemma {:induction false} TotalGrow(cmsgs: seq<Cmsg>, ms: set<nat>, k: nat, e: Entry)
    requires k < |cmsgs| && cmsgs[k].mn in ms
    ensures Total(cmsgs[k := Cmsg(cmsgs[k].mn, cmsgs[k].entries + [e])], ms) == Total(cmsgs, ms) + 1
  {
    var n := |cmsgs| - 1;
    var grown := cmsgs[k := Cmsg(cmsgs[k].mn, cmsgs[k].entries + [e])];
    if k == n {
      assert grown[..n] == cmsgs[..n];
    } else {
      TotalGrow(cmsgs[..n], ms, k, e);
      assert grown[..n] == cmsgs[..n][k := grown[k]];
    }
  }

  lemma AddTotal(b: Batch, mn: nat, typ: byte, payload: seq<byte>)
    requires Wf(b) && |b.slots| < MAX_MSG_CORO
    ensures var c := Add(b, mn, typ, payload); Total(c.cmsgs, Machines(c.cmsgs)) == |c.slots|
  {
    var c, k := Add(b, mn, typ, payload), Find(b.cmsgs, mn);
    if k < |b.cmsgs| {
      TotalGrow(b.cmsgs, Machines(b.cmsgs), k, Entry(typ, |b.slots|, payload));
      forall i | 0 <= i < |c.cmsgs| ensures c.cmsgs[i].mn in Machines(b.cmsgs) {
        assert c.cmsgs[i].mn == b.cmsgs[i].mn;
      }
      TotalSame(c.cmsgs, Machines(c.cmsgs), Machines(b.cmsgs));
    } else {
      assert c.cmsgs[..k] == b.cmsgs;
      TotalSame(b.cmsgs, Machines(c.cmsgs), Machines(b.cmsgs));
    }
  }

  lemma AddNumbered(b: Batch, mn: nat, typ: byte, payload: seq<byte>)
    requires Numbered(b) && |b.slots| < MAX_MSG_CORO
    ensures Numbered(Add(b, mn, typ, payload))
  {
    hide Find;
    var c := Add(b, mn, typ, payload);
    var at := c.places[|b.slots|];
    assert HasEntry(c.cmsgs, at) && EntryOf(c.cmsgs, at).seqnum == |b.slots|;
    forall p | HasEntry(c.cmsgs, p)
      ensures EntryOf(c.cmsgs, p).seqnum < |c.slots| && c.places[EntryOf(c.cmsgs, p).seqnum] == p
    {
      if p != at { assert HasEntry(b.cmsgs, p) && EntryOf(b.cmsgs, p) == EntryOf(c.cmsgs, p); }
    }
    forall i | 0 <= i < |b.slots| ensures HasEntry(c.cmsgs, c.places[i]) && EntryOf(c.cmsgs, c.places[i]).seqnum == i {
      assert HasEntry(b.cmsgs, b.places[i]);
    }
  }

  /** Every new request keeps the batch coalesced: one message per machine. */
  lemma AddKeepsWf(b: Batch, mn: nat, typ: byte, payload: seq<byte>)
    requires Wf(b) && |b.slots| < MAX_MSG_CORO
    ensures Wf(Add(b, mn, typ, payload))
  {
    hide Total, Machines, Find, Numbered;
    AddTotal(b, mn, typ, payload);
    AddNumbered(b, mn, typ, payload);
  }

  /** Filing entries with distinct numbers: each lands in its own slot, the rest are untouched. */
  lemma {:induction false} FillEffect(slots: seq<Slot>, entries: seq<Entry>)
    requires forall j :: 0 <= j < |entries| ==> entries[j].seqnum < |slots|
    requires forall i, j :: 0 <= i < j < |entries| ==> entries[i].seqnum != entries[j].seqnum
    ensures forall j :: 0 <= j < |entries| ==>
              Fill(slots, entries)[entries[j].seqnum] == Filled(entries[j].typ, entries[j].payload)
    ensures forall i :: 0 <= i < |slots| && (forall j :: 0 <= j < |entries| ==> entries[j].seqnum != i) ==>
              Fill(slots, entries)[i] == slots[i]
  {
    if entries != [] {
      FillEffect(slots, entries[..|entries| - 1]);
    }
  }
}
