/** The mlx4 completion queue: a ring whose entries carry an ownership bit that flips each
    time around, cleaned and resized in place. */
module CompletionQueue {
  import Modular

  datatype Cqe = Cqe(qpn: nat, opcode: nat, payload: nat, owner: bool) {
    /** The entry apart from its ownership bit. */
    function Body(): Cqe { this.(owner := false) }
  }

  const OPCODE_RESIZE: nat := 0x16

  /** Ring slot of index i. For a power-of-two size this is `i & (size - 1)`. */
  function Slot(size: nat, i: nat): (s: nat)
    requires size > 0
    ensures s < size
  {
    i % size
  }

  /** The ownership bit that marks index i as the software's: `i & size` is not zero. */
  predicate Parity(size: nat, i: nat)
    requires size > 0
  {
    (i / size) % 2 == 1
  }

  predicate SwOwned(ring: seq<Cqe>, i: nat)
    requires |ring| > 0
  {
    ring[Slot(|ring|, i)].owner == Parity(|ring|, i)
  }

  /** The bodies at indices from .. to - 1. */
  function Entries(ring: seq<Cqe>, from: nat, to: nat): (es: seq<Cqe>)
    requires |ring| > 0 && from <= to
    ensures |es| == to - from
    ensures forall i :: 0 <= i < |es| ==> es[i] == ring[Slot(|ring|, from + i)].Body()
  {
    seq(to - from, i requires 0 <= i < to - from => ring[Slot(|ring|, from + i)].Body())
  }

  /** The entries that do not belong to the given QP, in order. */
  function Without(es: seq<Cqe>, qpn: nat): seq<Cqe> {
    if es == [] then []
    else (if es[0].qpn == qpn then [] else [es[0]]) + Without(es[1..], qpn)
  }

  lemma {:induction false} WithoutLength(es: seq<Cqe>, qpn: nat)
    ensures |Without(es, qpn)| <= |es|
    ensures forall i :: 0 <= i < |Without(es, qpn)| ==> Without(es, qpn)[i].qpn != qpn && Without(es, qpn)[i] in es
  {
    if es != [] { WithoutLength(es[1..], qpn); }
  }

  /** The state of the backward sweep when the entries from p on have been looked at: those
      that stay sit, in order, just below the producer. */
  ghost predicate Swept(before: seq<Cqe>, now: seq<Cqe>, cons: nat, p: nat, prod: nat, nfreed: nat, qpn: nat)
    requires |before| == |now| > 0 && cons <= p <= prod
  {
    && var kept := Without(Entries(before, p, prod), qpn);
    && |kept| == prod - p - nfreed
    && (forall k :: p + nfreed <= k < prod ==> now[Slot(|now|, k)].Body() == kept[k - p - nfreed])
    && (forall s :: 0 <= s < |now| ==> now[s].owner == before[s].owner)
    && (forall i :: cons <= i < p ==> now[Slot(|now|, i)] == before[Slot(|now|, i)])
    && (forall i :: prod <= i < cons + |now| ==> now[Slot(|now|, i)] == before[Slot(|now|, i)])
  }

  lemma EntriesCons(ring: seq<Cqe>, from: nat, to: nat, qpn: nat)
    requires |ring| > 0 && from < to
    ensures Without(Entries(ring, from, to), qpn) ==
            (if ring[Slot(|ring|, from)].qpn == qpn then [] else [ring[Slot(|ring|, from)].Body()])
            + Without(Entries(ring, from + 1, to), qpn)
  {
    hide Slot;
    assert Entries(ring, from, to)[1..] == Entries(ring, from + 1, to);
  }

  lemma SweepDrops(before: seq<Cqe>, now: seq<Cqe>, cons: nat, p: nat, prod: nat, nfreed: nat, qpn: nat)
    requires |before| == |now| && cons <= p < prod < cons + |now|
    requires Swept(before, now, cons, p + 1, prod, nfreed, qpn)
    requires now[Slot(|now|, p)].qpn == qpn
    ensures Swept(before, now, cons, p, prod, nfreed + 1, qpn)
  {
    hide Slot;
    EntriesCons(before, p, prod, qpn);
    assert now[Slot(|now|, p)] == before[Slot(|now|, p)];
  }

  /** The entry at p copied up by nfreed places, over everything but the ownership bit. */
  function Moved(ring: seq<Cqe>, p: nat, nfreed: nat): seq<Cqe>
    requires |ring| > 0
  {
    var dest := Slot(|ring|, p + nfreed);
    ring[dest := ring[Slot(|ring|, p)].(owner := ring[dest].owner)]
  }

  lemma MovedEffect(ring: seq<Cqe>, cons: nat, p: nat, nfreed: nat)
    requires cons <= p && p + nfreed < cons + |ring|
    ensures |Moved(ring, p, nfreed)| == |ring|
    ensures forall i :: cons <= i < cons + |ring| && i != p + nfreed ==>
              Moved(ring, p, nfreed)[Slot(|ring|, i)] == ring[Slot(|ring|, i)]
    ensures Moved(ring, p, nfreed)[Slot(|ring|, p + nfreed)].Body() == ring[Slot(|ring|, p)].Body()
    ensures forall s :: 0 <= s < |ring| ==> Moved(ring, p, nfreed)[s].owner == ring[s].owner
  {
    hide Slot;
    SlotsApart(|ring|, cons, p + nfreed);
  }

  lemma SweepKeeps(before: seq<Cqe>, now: seq<Cqe>, cons: nat, p: nat, prod: nat, nfreed: nat, qpn: nat)
    requires |before| == |now| && cons <= p < prod < cons + |now|
    requires Swept(before, now, cons, p + 1, prod, nfreed, qpn)
    requires now[Slot(|now|, p)].qpn != qpn
    ensures p + nfreed < prod
    ensures Swept(before, Moved(now, p, nfreed), cons, p, prod, nfreed, qpn)
  {
    hide Slot, Moved, Without;
    EntriesCons(before, p, prod, qpn);
    MovedEffect(now, cons, p, nfreed);
    var after := Moved(now, p, nfreed);
    var kept := Without(Entries(before, p, prod), qpn);
    assert kept == [before[Slot(|now|, p)].Body()] + Without(Entries(before, p + 1, prod), qpn);
    forall k | p + nfreed <= k < prod ensures after[Slot(|now|, k)].Body() == kept[k - p - nfreed] {
      if k > p + nfreed { assert after[Slot(|now|, k)] == now[Slot(|now|, k)]; }
    }
  }

  /** Exactly k entries from index cons on are the software's. */
  ghost predicate IsOutstanding(ring: seq<Cqe>, cons: nat, k: nat)
    requires |ring| > 0
  {
    (forall i :: cons <= i < cons + k ==> SwOwned(ring, i)) && !SwOwned(ring, cons + k)
  }

  lemma LapFlips(ring: seq<Cqe>, i: nat)
    requires |ring| > 0
    ensures SwOwned(ring, i + |ring|) != SwOwned(ring, i)
  {
    Modular.NextLap(|ring|, i);
  }

  lemma OutstandingFits(ring: seq<Cqe>, cons: nat, k: nat)
    requires |ring| > 0 && IsOutstanding(ring, cons, k)
    ensures k <= |ring|
  {
    LapFlips(ring, cons);
  }

  /** What cleaning leaves for the next polls, when k entries were outstanding and nfreed of
      them were removed below the producer the sweep started from. Entries of the QP are left
      exactly when the ring was full and its last entry was the QP's. */
  lemma CleanLeaves(before: seq<Cqe>, after: seq<Cqe>, cons: nat, nfreed: nat, prod: nat, qpn: nat, k: nat)
    requires |before| == |after| > 0 && cons <= prod < cons + |before| && cons + nfreed <= prod
    requires IsOutstanding(before, cons, k)
    requires prod == cons + |before| - 1 || !SwOwned(before, prod)
    requires forall i :: cons <= i < prod ==> SwOwned(before, i)
    requires Entries(after, cons + nfreed, prod) == Without(Entries(before, cons, prod), qpn)
    requires forall i: nat :: SwOwned(after, i) == SwOwned(before, i)
    requires forall i :: prod <= i < cons + |before| ==> after[Slot(|after|, i)] == before[Slot(|before|, i)]
    ensures nfreed <= k && IsOutstanding(after, cons + nfreed, k - nfreed)
    ensures prod == cons + (if k < |before| then k else k - 1)
    ensures k < |before| ==> Entries(after, cons + nfreed, cons + k) == Without(Entries(before, cons, cons + k), qpn)
    ensures (exists e :: e in Entries(after, cons + nfreed, cons + k) && e.qpn == qpn)
            <==> k == |before| && before[Slot(|before|, cons + k - 1)].qpn == qpn
  {
    OutstandingFits(before, cons, k);
    hide Slot, SwOwned, Without;
    WithoutLength(Entries(before, cons, prod), qpn);
    var left := Entries(after, cons + nfreed, cons + k);
    var kept := Without(Entries(before, cons, prod), qpn);
    if k == |before| {
      var last := before[Slot(|before|, prod)].Body();
      assert left == kept + [last];
      assert last in left && before[Slot(|before|, cons + k - 1)].qpn == last.qpn;
    } else {
      assert left == kept;
    }
  }

  class Cq {
    var ring: array<Cqe>
    var consIndex: nat

    ghost predicate Valid()
      reads this
    {
      ring.Length > 0
    }

    /** The first index at or after the consumer that is not the software's, as far as the
        search looks: it stops one short of a full ring. */
    method FindProducer() returns (prod: nat)
      requires Valid()
      ensures consIndex <= prod < consIndex + ring.Length
      ensures forall i :: consIndex <= i < prod ==> SwOwned(ring[..], i)
      ensures prod == consIndex + ring.Length - 1 || !SwOwned(ring[..], prod)
    {
      prod := consIndex;
      while ring[Slot(ring.Length, prod)].owner == Parity(ring.Length, prod)
        invariant consIndex <= prod < consIndex + ring.Length
        invariant forall i :: consIndex <= i < prod ==> SwOwned(ring[..], i)
        decreases consIndex + ring.Length - prod
      {
        if prod == consIndex + ring.Length - 1 { break; }
        prod := prod + 1;
      }
    }

    /** One step of the backward sweep: an entry that stays moves up over the freed ones,
        keeping the ownership bit of the slot it lands in. */
    method MoveUp(p: nat, nfreed: nat)
      requires Valid()
      modifies ring
      ensures ring[..] == Moved(old(ring[..]), p, nfreed)
    {
      var dest := Slot(ring.Length, p + nfreed);
      var ownerBit := ring[dest].owner;
      ring[dest] := ring[Slot(ring.Length, p)];
      ring[dest] := ring[dest].(owner := ownerBit);
    }

    /** __mlx4_cq_clean with no SRQ. */
    method Clean(qpn: nat) returns (ghost prod: nat)
      requires Valid()
      modifies this`consIndex, ring
      ensures Valid() && ring == old(ring)
      ensures old(consIndex) <= prod < old(consIndex) + ring.Length
      ensures prod == old(consIndex) + ring.Length - 1 || !SwOwned(old(ring[..]), prod)
      ensures forall i :: old(consIndex) <= i < prod ==> SwOwned(old(ring[..]), i)
      // what is left is the old sequence without the QP's entries, before the same producer
      ensures consIndex <= prod
      ensures Entries(ring[..], consIndex, prod) == Without(Entries(old(ring[..]), old(consIndex), prod), qpn)
      // every slot keeps its ownership bit, so the same indices are the software's
      ensures forall i: nat :: SwOwned(ring[..], i) == SwOwned(old(ring[..]), i)
      ensures forall i :: prod <= i < old(consIndex) + ring.Length ==>
                ring[Slot(ring.Length, i)] == old(ring[Slot(ring.Length, i)])
    {
      hide Slot, Without, Entries;
      var p := FindProducer();
      prod := p;
      ghost var before := ring[..];
      var nfreed := 0;
      assert Swept(before, ring[..], consIndex, p, prod, nfreed, qpn) by {
        WithoutLength(Entries(before, p, prod), qpn);
      }
      while p > consIndex
        invariant consIndex <= p <= prod && consIndex == old(consIndex) && ring == old(ring)
        invariant Swept(before, ring[..], consIndex, p, prod, nfreed, qpn)
      {
        p := p - 1;
        ghost var now := ring[..];
        if ring[Slot(ring.Length, p)].qpn == qpn {
          SweepDrops(before, now, consIndex, p, prod, nfreed, qpn);
          nfreed := nfreed + 1;
        } else {
          SweepKeeps(before, now, consIndex, p, prod, nfreed, qpn);
          if nfreed > 0 {
            MoveUp(p, nfreed);
          }
          assert ring[..] == Moved(now, p, nfreed);
        }
      }
      consIndex := consIndex + nfreed;
      assert Entries(ring[..], consIndex, prod) == Without(Entries(before, old(consIndex), prod), qpn);
    }

    /** mlx4_get_outstanding_cqes. */
    method Outstanding() returns (k: nat)
      requires Valid()
      ensures IsOutstanding(ring[..], consIndex, k) && k <= ring.Length
    {
      var i := consIndex;
      LapFlips(ring[..], consIndex);
      while ring[Slot(ring.Length, i)].owner == Parity(ring.Length, i)
        invariant consIndex <= i <= consIndex + ring.Length
        invariant forall j :: consIndex <= j < i ==> SwOwned(ring[..], j)
        decreases consIndex + ring.Length - i
      {
        assert SwOwned(ring[..], i);
        i := i + 1;
      }
      k := i - consIndex;
      assert !SwOwned(ring[..], i);
    }

    /** mlx4_cq_resize_copy_cqes: the entries before the RESIZE marker move to the new buffer,
        one index later and with the ownership bits of the new size. */
    method Resize(buf: array<Cqe>, ghost marker: nat)
      requires Valid() && buf.Length > 0 && buf != ring
      requires consIndex <= marker < consIndex + ring.Length
      requires ring[Slot(ring.Length, marker)].opcode == OPCODE_RESIZE
      requires forall i :: consIndex <= i < marker ==> ring[Slot(ring.Length, i)].opcode != OPCODE_RESIZE
      modifies this, ring, buf
      ensures Valid() && ring == buf && consIndex == old(consIndex) + 1
      ensures marker - old(consIndex) <= buf.Length ==>
                && Entries(ring[..], consIndex, marker + 1) == Entries(old(ring[..]), old(consIndex), marker)
                && (forall i :: consIndex <= i <= marker ==> SwOwned(ring[..], i))
      // a smaller buffer keeps the newest entries
      ensures marker - old(consIndex) > buf.Length ==>
                && Entries(ring[..], marker + 1 - buf.Length, marker + 1)
                   == Entries(old(ring[..]), marker - buf.Length, marker)
      // and no other slot of the new buffer is written
      ensures forall i :: marker + 1 <= i < old(consIndex) + 1 + buf.Length ==>
                ring[Slot(buf.Length, i)] == old(buf[Slot(buf.Length, i)])
    {
      hide Slot, SwOwned, Parity;
      ghost var before, blank := ring[..], buf[..];
      var i := consIndex;
      while ring[Slot(ring.Length, i)].opcode != OPCODE_RESIZE
        invariant consIndex <= i <= marker && consIndex == old(consIndex) && ring == old(ring)
        invariant forall j :: i <= j <= marker ==> ring[Slot(ring.Length, j)] == before[Slot(ring.Length, j)]
        invariant Copied(before, buf[..], consIndex, i)
        invariant forall j :: i + 1 <= j < consIndex + 1 + buf.Length ==>
                    buf[Slot(buf.Length, j)] == blank[Slot(buf.Length, j)]
        decreases marker - i
      {
        CopyOne(before, buf[..], blank, consIndex, i, ring[Slot(ring.Length, i)].(owner := Parity(buf.Length, i + 1)));
        SlotsApart(ring.Length, consIndex, i);
        ring[Slot(ring.Length, i)] := ring[Slot(ring.Length, i)].(owner := Parity(buf.Length, i + 1));
        buf[Slot(buf.Length, i + 1)] := ring[Slot(ring.Length, i)];
        i := i + 1;
      }
      CopiedAll(before, buf[..], consIndex, i);
      ring := buf;
      consIndex := consIndex + 1;
    }
  }

  /** The new buffer holds the entries cons .. i - 1, as many as fit, each one index later. */
  ghost predicate Copied(old_: seq<Cqe>, new_: seq<Cqe>, cons: nat, i: nat)
    requires |old_| > 0 && |new_| > 0 && cons <= i
  {
    forall j :: cons < j <= i && i < j + |new_| ==>
      && new_[Slot(|new_|, j)].Body() == old_[Slot(|old_|, j - 1)].Body()
      && SwOwned(new_, j)
  }

  lemma CopyOne(old_: seq<Cqe>, new_: seq<Cqe>, blank: seq<Cqe>, cons: nat, i: nat, e: Cqe)
    requires |old_| > 0 && |new_| == |blank| > 0 && cons <= i && Copied(old_, new_, cons, i)
    requires e.Body() == old_[Slot(|old_|, i)].Body() && e.owner == Parity(|new_|, i + 1)
    requires forall j :: i + 1 <= j < cons + 1 + |new_| ==> new_[Slot(|new_|, j)] == blank[Slot(|new_|, j)]
    ensures var next := new_[Slot(|new_|, i + 1) := e];
            && Copied(old_, next, cons, i + 1)
            && forall j :: i + 2 <= j < cons + 1 + |new_| ==> next[Slot(|new_|, j)] == blank[Slot(|new_|, j)]
  {
    hide Slot, Parity;
    var next := new_[Slot(|new_|, i + 1) := e];
    forall j | cons < j <= i + 1 && i + 1 < j + |new_|
      ensures next[Slot(|new_|, j)].Body() == old_[Slot(|old_|, j - 1)].Body() && SwOwned(next, j)
    {
      if j <= i { SlotsApart(|new_|, j, i + 1); }
    }
    forall j | i + 2 <= j < cons + 1 + |new_| ensures next[Slot(|new_|, j)] == blank[Slot(|new_|, j)] {
      SlotsApart(|new_|, i + 1, j);
    }
  }

  lemma CopiedAll(old_: seq<Cqe>, new_: seq<Cqe>, cons: nat, m: nat)
    requires |old_| > 0 && |new_| > 0 && cons <= m && Copied(old_, new_, cons, m)
    ensures m - cons <= |new_| ==>
              && Entries(new_, cons + 1, m + 1) == Entries(old_, cons, m)
              && (forall i :: cons + 1 <= i <= m ==> SwOwned(new_, i))
    ensures m - cons > |new_| ==> Entries(new_, m + 1 - |new_|, m + 1) == Entries(old_, m - |new_|, m)
  {
    hide Slot, SwOwned;
  }

  lemma SlotsApart(size: nat, base: nat, d: nat)
    requires size > 0 && base <= d < base + size
    ensures forall i :: base <= i < base + size && i != d ==> Slot(size, i) != Slot(size, d)
  {
    forall i | base <= i < base + size && i != d ensures Slot(size, i) != Slot(size, d) {
      if i < d { Modular.Apart(size, i, d); } else { Modular.Apart(size, d, i); }
    }
  }
}
