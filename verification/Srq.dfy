/** The mlx4 shared receive queue: free descriptors form a chain threaded through the buffer. */
module Srq {

  datatype Wr = Wr(wrId: nat, sges: seq<nat>)

  datatype Status = Ok | NoMem | Invalid

  predicate Distinct(s: seq<nat>) {
    forall i, j :: 0 <= i < j < |s| ==> s[i] != s[j]
  }

  /** The chain of free descriptors from head to tail. */
  ghost predicate Chain(next: seq<nat>, free: seq<nat>, head: nat, tail: nat) {
    && |free| > 0 && free[0] == head && free[|free| - 1] == tail && Distinct(free)
    && (forall i :: 0 <= i < |free| ==> free[i] < |next|)
    && (forall i :: 0 <= i < |free| - 1 ==> next[free[i]] == free[i + 1])
  }

  /** Chains are determined by their ends. */
  lemma {:induction false} ChainUnique(next: seq<nat>, a: seq<nat>, b: seq<nat>, head: nat, tail: nat)
    requires Chain(next, a, head, tail) && Chain(next, b, head, tail)
    ensures a == b
  {
    if |a| == 1 || |b| == 1 {
      assert head == tail && a[0] == a[|a| - 1] && b[0] == b[|b| - 1];
    } else {
      var h := next[head];
      assert a[1] == h && b[1] == h;
      ChainTail(next, a, head, tail);
      ChainTail(next, b, head, tail);
      ChainUnique(next, a[1..], b[1..], h, tail);
      assert a == [a[0]] + a[1..] && b == [b[0]] + b[1..];
    }
  }

  lemma ChainTail(next: seq<nat>, free: seq<nat>, head: nat, tail: nat)
    requires Chain(next, free, head, tail) && |free| > 1
    ensures Chain(next, free[1..], next[head], tail)
  {
  }

  /** Appending an index that is not on the chain. */
  lemma ChainAppend(next: seq<nat>, free: seq<nat>, head: nat, tail: nat, ind: nat)
    requires Chain(next, free, head, tail) && ind < |next| && ind !in free
    ensures Chain(next[tail := ind], free + [ind], head, ind)
  {
    var n, more := next[tail := ind], free + [ind];
    forall i | 0 <= i < |more| - 1 ensures n[more[i]] == more[i + 1] {
      if i < |free| - 1 { assert free[i] != free[|free| - 1]; }
    }
  }

  lemma ChainEnds(next: seq<nat>, free: seq<nat>, head: nat, tail: nat)
    requires Chain(next, free, head, tail)
    ensures |free| > 0 && head == free[0] && (head == tail <==> |free| == 1)
    ensures Distinct(free) && forall i :: 0 <= i < |free| ==> free[i] < |next|
  {
  }

  /** The first n requests sit in the first n descriptors of the chain; the others are as
      they were. */
  ghost predicate Stored(wrid0: seq<nat>, descr0: seq<seq<nat>>, wrid: seq<nat>, descr: seq<seq<nat>>,
                         free: seq<nat>, wrs: seq<Wr>, n: nat)
  {
    && |wrid| == |wrid0| == |descr| == |descr0| && n <= |wrs| && n <= |free|
    && (forall k :: 0 <= k < n ==>
          free[k] < |wrid| && wrid[free[k]] == wrs[k].wrId && descr[free[k]] == wrs[k].sges)
    && (forall i :: 0 <= i < |wrid| && i !in free[..n] ==> wrid[i] == wrid0[i] && descr[i] == descr0[i])
  }

  lemma StoreNext(wrid0: seq<nat>, descr0: seq<seq<nat>>, wrid: seq<nat>, descr: seq<seq<nat>>,
                  free: seq<nat>, wrs: seq<Wr>, n: nat)
    requires Stored(wrid0, descr0, wrid, descr, free, wrs, n) && Distinct(free) && n < |wrs|
    requires n < |free| && free[n] < |wrid|
    ensures Stored(wrid0, descr0, wrid[free[n] := wrs[n].wrId], descr[free[n] := wrs[n].sges], free, wrs, n + 1)
  {
    assert free[..n + 1] == free[..n] + [free[n]];
  }

  lemma StoredNone(wrid: seq<nat>, descr: seq<seq<nat>>, free: seq<nat>, wrs: seq<Wr>)
    requires |wrid| == |descr|
    ensures Stored(wrid, descr, wrid, descr, free, wrs, 0)
    ensures Elems(free[..0]) == {}
  {
  }

  ghost function Elems(s: seq<nat>): set<nat> {
    set i | i in s
  }

  lemma ElemsNext(s: seq<nat>, n: nat)
    requires n < |s|
    ensures Elems(s[..n + 1]) == Elems(s[..n]) + {s[n]}
  {
    assert s[..n + 1] == s[..n] + [s[n]];
  }

  lemma FreeNotInUse(free: seq<nat>, inUse: set<nat>, n: nat)
    requires n <= |free| && forall i :: i in free ==> i !in inUse
    ensures inUse !! Elems(free[..n])
  {
  }

  lemma FreeInRange(free: seq<nat>, inUse: set<nat>, next: seq<nat>, head: nat, tail: nat)
    requires Chain(next, free, head, tail) && forall i :: 0 <= i < |next| ==> (i in inUse <==> i !in free)
    ensures forall i :: i in free ==> i !in inUse
  {
  }

  class SharedRq {
    const max: nat
    const maxGs: nat
    var next: array<nat>
    var wrid: array<nat>
    var descr: array<seq<nat>>
    var head: nat
    var tail: nat
    var counter: nat
    var doorbell: nat
    /** The free descriptors in chain order, and those the hardware has. */
    ghost var free: seq<nat>
    ghost var inUse: set<nat>

    /** Every index is free or in use, never both. */
    ghost predicate Valid()
      reads this, next
    {
      && next.Length == wrid.Length == descr.Length == max && next != wrid
      && Chain(next[..], free, head, tail)
      && (forall i :: 0 <= i < max ==> (i in inUse <==> i !in free))
      && (forall i :: i in inUse ==> i < max)
    }

    constructor (max: nat, maxGs: nat)
      requires max > 0
      ensures Valid() && this.max == max && this.maxGs == maxGs && inUse == {} && |free| == max
      ensures fresh(next) && fresh(wrid) && fresh(descr)
    {
      this.max, this.maxGs := max, maxGs;
      next := new nat[max](i => if i + 1 == max then 0 else i + 1);
      wrid := new nat[max];
      descr := new seq<nat>[max];
      head, tail, counter, doorbell := 0, max - 1, 0, 0;
      free, inUse := seq(max, i requires 0 <= i < max => i), {};
      new;
      forall i | 0 <= i < max ensures i in free { assert free[i] == i; }
    }

    /** The loop of mlx4_post_srq_recv. */
    method FillWqes(wrs: seq<Wr>) returns (status: Status, n: nat)
      requires Valid()
      modifies this`head, this`free, this`inUse, wrid, descr
      ensures Valid() && n <= |wrs| && n < |old(free)| && free == old(free)[n..]
      ensures inUse == old(inUse) + Elems(old(free)[..n])
      ensures Stored(old(wrid[..]), old(descr[..]), wrid[..], descr[..], old(free), wrs, n)
      ensures status == Ok <==> n == |wrs|
      ensures status == Invalid <==> n < |wrs| && |wrs[n].sges| > maxGs
      ensures status == NoMem ==> |free| == 1
    {
      ghost var before, wrid0, descr0 := free, wrid[..], descr[..];
      ChainEnds(next[..], free, head, tail);
      StoredNone(wrid0, descr0, free, wrs);
      hide Chain, Stored, Elems;
      n := 0;
      while n < |wrs|
        invariant 0 <= n <= |wrs| && Valid() && n < |before| && free == before[n..]
        invariant inUse == old(inUse) + Elems(before[..n])
        invariant Stored(wrid0, descr0, wrid[..], descr[..], before, wrs, n)
      {
        ChainEnds(next[..], free, head, tail);
        if |wrs[n].sges| > maxGs { return Invalid, n; }
        if head == tail { return NoMem, n; }
        assert head == before[n];
        StoreNext(wrid0, descr0, wrid[..], descr[..], before, wrs, n);
        TakeFirst(wrs[n]);
        ElemsNext(before, n);
        n := n + 1;
      }
      return Ok, n;
    }

    /** mlx4_post_srq_recv: the requests before the first bad one take the chain's first
        descriptors, in order. One descriptor always stays on the chain. */
    method Post(wrs: seq<Wr>) returns (status: Status, n: nat)
      requires Valid()
      modifies this`head, this`counter, this`doorbell, this`free, this`inUse, wrid, descr
      ensures Valid() && n <= |wrs| && n < |old(free)| && free == old(free)[n..]
      ensures inUse == old(inUse) + Elems(old(free)[..n]) && old(inUse) !! Elems(old(free)[..n])
      ensures Stored(old(wrid[..]), old(descr[..]), wrid[..], descr[..], old(free), wrs, n)
      ensures status == Ok <==> n == |wrs|
      ensures status == Invalid <==> n < |wrs| && |wrs[n].sges| > maxGs
      ensures status == NoMem ==> |free| == 1
      ensures counter == old(counter) + n && doorbell == (if n == 0 then old(doorbell) else counter)
    {
      FreeInRange(free, inUse, next[..], head, tail);
      status, n := FillWqes(wrs);
      FreeNotInUse(old(free), old(inUse), n);
      if n > 0 {
        counter := counter + n;
        doorbell := counter;
      }
    }

    method TakeFirst(wr: Wr)
      requires Valid() && head != tail
      modifies this`head, this`free, this`inUse, wrid, descr
      ensures Valid() && free == old(free[1..]) && inUse == old(inUse) + {old(head)}
      ensures wrid[..] == old(wrid[..])[old(head) := wr.wrId] && descr[..] == old(descr[..])[old(head) := wr.sges]
    {
      ChainTail(next[..], free, head, tail);
      wrid[head] := wr.wrId;
      descr[head] := wr.sges;
      inUse, free := inUse + {head}, free[1..];
      head := next[head];
    }

    /** mlx4_free_srq_wqe of a descriptor the hardware has returned. */
    method Free(ind: nat)
      requires Valid() && ind in inUse
      modifies this`tail, this`free, this`inUse, next
      ensures Valid() && free == old(free) + [ind] && inUse == old(inUse) - {ind}
    {
      ChainAppend(next[..], free, head, tail, ind);
      next[tail] := ind;
      tail := ind;
      free, inUse := free + [ind], inUse - {ind};
    }
  }
}
