/** Compressed mlx5 completions: a title entry and blocks of eight mini entries, expanded in
    place into full completion entries. */
module Decompression {
  import opened CompletionQueue

  datatype Mini = Mini(byteCnt: nat, rxHash: nat, wqeCounter: nat, sop: nat)

  /** The byte op_own: opcode in bits 7..4, format in bits 3..2, solicited event in bit 1,
      ownership in bit 0. */
  datatype OpOwn = OpOwn(opcode: nat, format: nat, solicited: bool, owner: bool) {
    /** `op_own & 0xf2` with the ownership bit set to own. */
    function Plain(own: bool): OpOwn { this.(format := 0, owner := own) }

    predicate IsRequestor() { opcode == 0 || opcode == 13 }
  }

  /** `rest` stands for the fields that expansion only copies from the title. */
  datatype Cqe64 = Cqe64(byteCnt: nat, opOwn: OpOwn, wqeCounter: nat, sop: nat, rxHash: nat, rest: nat)

  /** 64 bytes of the ring: one completion entry, or eight mini entries. */
  datatype Entry = Full(cqe: Cqe64) | Minis(minis: seq<Mini>)

  const BLOCK: nat := 8

  /** The format of a compressed session's title. */
  const COMPRESSED: nat := 3

  /** The opcode of an entry that the hardware has not written. */
  const INVALID: nat := 15

  /** The eight mini entries at a place, whatever was stored there. */
  function MinisOf(e: Entry): (m: seq<Mini>)
    ensures |m| == BLOCK
  {
    if e.Minis? && |e.minis| == BLOCK then e.minis else seq(BLOCK, _ => Mini(0, 0, 0, 0))
  }

  /** WQEs, or strides of a multi-packet receive queue, that one mini entry accounts for. */
  function Consumed(mini: Mini, requestor: bool, mpRq: bool): nat {
    if requestor then 0 else if mpRq then mini.byteCnt / 0x1_0000 % 0x8000 else 1
  }

  /** The 16-bit WQE counter moved on over one mini entry. */
  function Bump(w: nat, mini: Mini, requestor: bool, mpRq: bool): nat {
    (w + Consumed(mini, requestor, mpRq)) % 0x1_0000
  }

  /** The WQE counter after the given mini entries. */
  function Advance(w: nat, minis: seq<Mini>, requestor: bool, mpRq: bool): nat {
    if minis == [] then w
    else Bump(Advance(w, minis[..|minis| - 1], requestor, mpRq), minis[|minis| - 1], requestor, mpRq)
  }

  /** The full entry of one mini entry. */
  function Expand(title: Cqe64, mini: Mini, wqe: nat, own: bool): Cqe64 {
    var c := title.(byteCnt := mini.byteCnt, opOwn := title.opOwn.Plain(own));
    if title.opOwn.IsRequestor() then c.(wqeCounter := mini.wqeCounter, sop := mini.sop)
    else c.(rxHash := mini.rxHash, wqeCounter := wqe)
  }

  /** The full entry of the i-th mini entry, when the WQE counter is w before the first. */
  function ExpandNth(title: Cqe64, minis: seq<Mini>, w: nat, i: nat, own: bool, mpRq: bool): Cqe64
    requires i < |minis|
  {
    Expand(title, minis[i], Advance(w, minis[..i], title.opOwn.IsRequestor(), mpRq), own)
  }

  /** The title is the first entry to be overwritten, and expanding from what it then holds
      gives the same entries. */
  lemma TitleSurvives(title: Cqe64, m0: Mini, w0: nat, own0: bool, m: Mini, w: nat, own: bool)
    ensures Expand(Expand(title, m0, w0, own0), m, w, own) == Expand(title, m, w, own)
    ensures Expand(title, m0, w0, own0).opOwn.IsRequestor() == title.opOwn.IsRequestor()
  {
  }

  lemma {:induction false} AdvanceConcat(w: nat, a: seq<Mini>, b: seq<Mini>, requestor: bool, mpRq: bool)
    ensures Advance(w, a + b, requestor, mpRq) == Advance(Advance(w, a, requestor, mpRq), b, requestor, mpRq)
  {
    if b == [] {
      assert a + b == a;
    } else {
      AdvanceConcat(w, a, b[..|b| - 1], requestor, mpRq);
      assert (a + b)[..|a + b| - 1] == a + b[..|b| - 1];
    }
  }

  /** Where block j of mini entries sits: the first one right after the title, each later one
      in the slot of the first entry it expands to. */
  function BlockIndex(idx: nat, j: nat): nat {
    if j == 0 then idx + 1 else idx + BLOCK * j
  }

  function MiniAt(ring: seq<Entry>, idx: nat, k: nat): Mini
    requires |ring| > 0
  {
    MinisOf(ring[Slot(|ring|, BlockIndex(idx, k / BLOCK))])[k % BLOCK]
  }

  function MinisUpTo(ring: seq<Entry>, idx: nat, k: nat): (m: seq<Mini>)
    requires |ring| > 0
    ensures |m| == k
  {
    seq(k, i requires 0 <= i < k => MiniAt(ring, idx, i))
  }

  /** What the entry at idx + k must become. */
  function Expanded(ring: seq<Entry>, idx: nat, k: nat, mpRq: bool): Entry
    requires |ring| > 0 && ring[Slot(|ring|, idx)].Full?
  {
    var title := ring[Slot(|ring|, idx)].cqe;
    var w := Advance(title.wqeCounter, MinisUpTo(ring, idx, k), title.opOwn.IsRequestor(), mpRq);
    Full(Expand(title, MiniAt(ring, idx, k), w, Parity(|ring|, idx + k)))
  }

  /** What get_sw_cqe returns an entry for: a valid opcode, and the ownership bit of the lap. */
  predicate Pollable(ring: seq<Entry>, i: nat)
    requires |ring| > 0
  {
    var e := ring[Slot(|ring|, i)];
    e.Full? && e.cqe.opOwn.opcode != INVALID && e.cqe.opOwn.owner == Parity(|ring|, i)
  }

  /** In a ring expanded from a title, each entry of the session can be polled at its own
      index exactly if the title's opcode is valid, and none is compressed any more. */
  lemma ExpandedIsPollable(before: seq<Entry>, after: seq<Entry>, idx: nat, cnt: nat, mpRq: bool)
    requires |after| == |before| > 0 && before[Slot(|before|, idx)].Full?
    requires forall k :: idx <= k < idx + cnt ==>
               after[Slot(|after|, k)] == Expanded(before, idx, k - idx, mpRq)
    ensures forall k :: idx <= k < idx + cnt ==>
              && (Pollable(after, k) <==> before[Slot(|before|, idx)].cqe.opOwn.opcode != INVALID)
              && after[Slot(|after|, k)].Full? && after[Slot(|after|, k)].cqe.opOwn.format != COMPRESSED
  {
    forall k | idx <= k < idx + cnt
      ensures && (Pollable(after, k) <==> before[Slot(|before|, idx)].cqe.opOwn.opcode != INVALID)
              && after[Slot(|after|, k)].Full? && after[Slot(|after|, k)].cqe.opOwn.format != COMPRESSED
    {
      assert after[Slot(|after|, k)] == Expanded(before, idx, k - idx, mpRq);
    }
  }

  /** Entries at .. at + cnt - 1 are expanded from the title at idx, and nothing else changed. */
  ghost predicate BlockCopied(before: seq<Entry>, after: seq<Entry>, minis: seq<Mini>, idx: nat, cnt: nat,
                              w: nat, at: nat, mpRq: bool)
    requires |before| == |after| > 0 && cnt <= |minis| && before[Slot(|before|, idx)].Full?
  {
    var n, title := |before|, before[Slot(|before|, idx)].cqe;
    && (forall k :: at <= k < at + cnt ==>
          after[Slot(n, k)] == Full(ExpandNth(title, minis, w, k - at, Parity(n, k), mpRq)))
    && (forall k :: idx <= k < idx + n && !(at <= k < at + cnt) ==> after[Slot(n, k)] == before[Slot(n, k)])
  }

  /** The first done entries are expanded, the rest of the ring is untouched, and w is the
      counter for the next entry. */
  ghost predicate Progress(before: seq<Entry>, now: seq<Entry>, idx: nat, done: nat, w: nat, mpRq: bool)
    requires |now| == |before| > 0
  {
    var n := |before|;
    && before[Slot(n, idx)].Full?
    && var title := before[Slot(n, idx)].cqe;
    && w == Advance(title.wqeCounter, MinisUpTo(before, idx, done), title.opOwn.IsRequestor(), mpRq)
    && (forall k :: idx <= k < idx + done ==> now[Slot(n, k)] == Expanded(before, idx, k - idx, mpRq))
    && (forall k :: idx + done <= k < idx + n ==> now[Slot(n, k)] == before[Slot(n, k)])
  }

  lemma BlockMinis(ring: seq<Entry>, idx: nat, done: nat, i: nat)
    requires |ring| > 0 && done % BLOCK == 0 && i <= BLOCK
    ensures var minis := MinisOf(ring[Slot(|ring|, BlockIndex(idx, done / BLOCK))]);
            && MinisUpTo(ring, idx, done + i) == MinisUpTo(ring, idx, done) + minis[..i]
            && (i < BLOCK ==> MiniAt(ring, idx, done + i) == minis[i])
  {
    hide Slot;
    var minis := MinisOf(ring[Slot(|ring|, BlockIndex(idx, done / BLOCK))]);
    forall j | 0 <= j < BLOCK ensures MiniAt(ring, idx, done + j) == minis[j] {
      assert (done + j) / BLOCK == done / BLOCK && (done + j) % BLOCK == j;
    }
  }

  /** Expanding one entry of a block from the current title gives what the old ring called for. */
  lemma NthExpanded(before: seq<Entry>, now: seq<Entry>, idx: nat, done: nat, w: nat, i: nat, mpRq: bool)
    requires |now| == |before| > 0 && Progress(before, now, idx, done, w, mpRq)
    requires done % BLOCK == 0 && i < BLOCK && done + i < |before|
    ensures now[Slot(|now|, idx)].Full?
    ensures now[Slot(|now|, idx)].cqe.opOwn.IsRequestor() == before[Slot(|now|, idx)].cqe.opOwn.IsRequestor()
    ensures var minis := MinisOf(before[Slot(|before|, BlockIndex(idx, done / BLOCK))]);
            Full(ExpandNth(now[Slot(|now|, idx)].cqe, minis, w, i, Parity(|before|, idx + done + i), mpRq))
            == Expanded(before, idx, done + i, mpRq)
  {
    hide Slot, Parity, Bump, MinisUpTo, MiniAt, MinisOf;
    var minis := MinisOf(before[Slot(|before|, BlockIndex(idx, done / BLOCK))]);
    var title := before[Slot(|before|, idx)].cqe;
    var req := title.opOwn.IsRequestor();
    BlockMinis(before, idx, done, i);
    AdvanceConcat(title.wqeCounter, MinisUpTo(before, idx, done), minis[..i], req, mpRq);
    if done > 0 {
      assert now[Slot(|now|, idx)] == Expanded(before, idx, 0, mpRq);
      TitleSurvives(title, MiniAt(before, idx, 0), Advance(title.wqeCounter, MinisUpTo(before, idx, 0), req, mpRq),
                    Parity(|before|, idx), minis[i],
                    Advance(w, minis[..i], req, mpRq), Parity(|before|, idx + done + i));
    }
  }

  lemma ProgressStart(ring: seq<Entry>, idx: nat, mpRq: bool)
    requires |ring| > 0 && ring[Slot(|ring|, idx)].Full?
    ensures Progress(ring, ring, idx, 0, ring[Slot(|ring|, idx)].cqe.wqeCounter, mpRq)
  {
    hide Slot;
  }

  lemma TitleFull(before: seq<Entry>, now: seq<Entry>, idx: nat, done: nat, w: nat, mpRq: bool)
    requires |now| == |before| > 0 && Progress(before, now, idx, done, w, mpRq)
    ensures now[Slot(|now|, idx)].Full?
  {
  }

  lemma ProgressStep(before: seq<Entry>, now: seq<Entry>, next: seq<Entry>, idx: nat, done: nat, cnt: nat,
                     w: nat, mpRq: bool)
    requires |next| == |now| == |before| > 0 && Progress(before, now, idx, done, w, mpRq)
    requires done % BLOCK == 0 && 0 < cnt <= BLOCK && done + cnt <= |before|
    requires now[Slot(|now|, idx)].Full?
    requires var minis := MinisOf(before[Slot(|before|, BlockIndex(idx, done / BLOCK))]);
             BlockCopied(now, next, minis, idx, cnt, w, idx + done, mpRq)
    ensures var minis := MinisOf(before[Slot(|before|, BlockIndex(idx, done / BLOCK))]);
            Progress(before, next, idx, done + cnt,
                     Advance(w, minis[..cnt], now[Slot(|now|, idx)].cqe.opOwn.IsRequestor(), mpRq), mpRq)
  {
    hide Slot, Parity, Bump, MinisUpTo, MiniAt, MinisOf, ExpandNth, Expanded;
    var n := |before|;
    var minis := MinisOf(before[Slot(n, BlockIndex(idx, done / BLOCK))]);
    var title := before[Slot(n, idx)].cqe;
    NthExpanded(before, now, idx, done, w, 0, mpRq);
    BlockMinis(before, idx, done, cnt);
    AdvanceConcat(title.wqeCounter, MinisUpTo(before, idx, done), minis[..cnt], title.opOwn.IsRequestor(), mpRq);
    forall k | idx <= k < idx + done + cnt ensures next[Slot(n, k)] == Expanded(before, idx, k - idx, mpRq) {
      if k >= idx + done { NthExpanded(before, now, idx, done, w, k - idx - done, mpRq); }
    }
  }

  class Cq5 {
    var ring: array<Entry>

    /** copy_cqes: cnt entries from index at on, expanded from the title at index idx. */
    method CopyCqes(minis: seq<Mini>, idx: nat, cnt: nat, w: nat, at: nat, mpRq: bool) returns (w': nat)
      requires cnt <= |minis| && idx <= at && at + cnt <= idx + ring.Length
      requires ring.Length > 0 && ring[Slot(ring.Length, idx)].Full?
      modifies ring
      ensures w' == Advance(w, minis[..cnt], old(ring[Slot(ring.Length, idx)].cqe.opOwn.IsRequestor()), mpRq)
      ensures BlockCopied(old(ring[..]), ring[..], minis, idx, cnt, w, at, mpRq)
    {
      hide Slot, Parity, Expand, Bump;
      var n := ring.Length;
      var isReq := ring[Slot(n, idx)].cqe.opOwn.IsRequestor();
      ghost var title := ring[Slot(n, idx)].cqe;
      w' := w;
      assert minis[..0] == [];
      for i := 0 to cnt
        invariant w' == Advance(w, minis[..i], isReq, mpRq)
        invariant forall k :: at <= k < at + i ==>
                    ring[Slot(n, k)] == Full(ExpandNth(title, minis, w, k - at, Parity(n, k), mpRq))
        invariant forall k :: idx <= k < idx + n && !(at <= k < at + i) ==> ring[Slot(n, k)] == old(ring[Slot(n, k)])
        invariant ring[Slot(n, idx)].Full?
        invariant at == idx && i > 0 ==> ring[Slot(n, idx)].cqe == Expand(title, minis[0], w, Parity(n, idx))
      {
        assert minis[..i + 1][..i] == minis[..i];
        SlotsApart(n, idx, at + i);
        if at == idx && i > 0 {
          TitleSurvives(title, minis[0], w, Parity(n, idx), minis[i], w', Parity(n, at + i));
        }
        ring[Slot(n, at + i)] := Full(Expand(ring[Slot(n, idx)].cqe, minis[i], w', Parity(n, at + i)));
        w' := Bump(w', minis[i], isReq, mpRq);
      }
    }

    /** mlx5_decompress_cqe_idx. */
    method Decompress(idx: nat, mpRq: bool)
      requires ring.Length > 0 && ring[Slot(ring.Length, idx)].Full?
      requires ring[Slot(ring.Length, idx)].cqe.byteCnt <= ring.Length
      modifies ring
      ensures var n, cnt := ring.Length, old(ring[Slot(ring.Length, idx)].cqe.byteCnt);
              && (forall k :: idx <= k < idx + cnt ==> ring[Slot(n, k)] == Expanded(old(ring[..]), idx, k - idx, mpRq))
              && (forall k :: idx + cnt <= k < idx + n ==> ring[Slot(n, k)] == old(ring[Slot(n, k)]))
    {
      hide Slot, Parity, Bump, MinisUpTo, MiniAt, MinisOf, ExpandNth, Expanded, Advance;
      var n := ring.Length;
      var cnt := ring[Slot(n, idx)].cqe.byteCnt;
      var w := ring[Slot(n, idx)].cqe.wqeCounter;
      var minis := MinisOf(ring[Slot(n, idx + 1)]);
      ghost var before := ring[..];
      var done := 0;
      ProgressStart(before, idx, mpRq);
      while cnt - done > 7
        invariant 0 <= done <= cnt && done % BLOCK == 0
        invariant Progress(before, ring[..], idx, done, w, mpRq)
        invariant |minis| == BLOCK
        invariant done < cnt ==> minis == MinisOf(before[Slot(n, BlockIndex(idx, done / BLOCK))])
        decreases cnt - done
      {
        ghost var now := ring[..];
        TitleFull(before, now, idx, done, w, mpRq);
        ghost var w0 := w;
        w := CopyCqes(minis, idx, BLOCK, w, idx + done, mpRq);
        ProgressStep(before, now, ring[..], idx, done, BLOCK, w0, mpRq);
        minis := MinisOf(ring[Slot(n, idx + done + BLOCK)]);
        done := done + BLOCK;
      }
      ghost var now, w0 := ring[..], w;
      TitleFull(before, now, idx, done, w, mpRq);
      w := CopyCqes(minis, idx, cnt - done, w, idx + done, mpRq);
      if done < cnt {
        ProgressStep(before, now, ring[..], idx, done, cnt - done, w0, mpRq);
      }
    }
  }
}
