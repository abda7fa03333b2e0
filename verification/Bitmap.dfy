/** The range allocator of the mlx4 driver: aligned runs of bits in a bitmap. */
module Bitmap {
  import Modular

  const WORD: nat := 32

  /** The alignments that callers pass: the code rounds up by masking low bits off. */
  predicate PowerOfTwo(a: nat) {
    a > 0 && (a == 1 || (a % 2 == 0 && PowerOfTwo(a / 2)))
  }

  /** The least multiple of a at or above x, which for a power of two, and only for one, is
      `(x + a - 1) & ~(a - 1)`. */
  function AlignUp(x: nat, a: nat): (r: nat)
    requires a > 0
    ensures x <= r < x + a
  {
    if x % a == 0 then x else x + (a - x % a)
  }

  lemma AlignUpLeast(x: nat, a: nat)
    requires a > 0
    ensures AlignUp(x, a) % a == 0
    ensures forall s :: x <= s < AlignUp(x, a) ==> s % a != 0
  {
    var r := AlignUp(x, a);
    if x % a != 0 {
      assert r == a * (x / a + 1) + 0 by { assert x == a * (x / a) + x % a; }
      Modular.Unique(a, r, x / a + 1, 0);
    }
    forall s | x <= s < r ensures s % a != 0 { Modular.Apart(a, s, r); }
  }

  lemma NextAligned(s: nat, a: nat)
    requires a > 0 && s % a == 0
    ensures (s + a) % a == 0 && forall t :: s < t < s + a ==> t % a != 0
  {
    Modular.NextLap(a, s);
    forall t | s < t < s + a ensures t % a != 0 { Modular.Apart(a, s, t); }
  }

  /** Bits s .. s + len - 1 exist and are clear. */
  predicate FreeRun(bits: seq<bool>, s: nat, len: nat) {
    s + len <= |bits| && forall i :: s <= i < s + len ==> !bits[i]
  }

  /** No aligned free run starts in from .. to - 1. */
  predicate NoneIn(bits: seq<bool>, from: nat, to: nat, len: nat, a: nat)
    requires a > 0
  {
    forall s :: from <= s < to && s % a == 0 ==> !FreeRun(bits, s, len)
  }

  ghost predicate Possible(bits: seq<bool>, len: nat, a: nat)
    requires a > 0
  {
    exists t: nat :: t % a == 0 && FreeRun(bits, t, len)
  }

  lemma NotPossible(bits: seq<bool>, len: nat, a: nat)
    requires a > 0 && len > 0 && (len > |bits| || NoneIn(bits, 0, |bits|, len, a))
    ensures !Possible(bits, len, a)
  {
  }

  /** The run a search from `from` and then from 0 must find. */
  predicate Chosen(bits: seq<bool>, from: nat, s: nat, len: nat, a: nat)
    requires a > 0
  {
    && s % a == 0 && FreeRun(bits, s, len)
    && if s >= from then NoneIn(bits, from, s, len, a)
       else NoneIn(bits, from, |bits|, len, a) && NoneIn(bits, 0, s, len, a)
  }

  /** A cursor that has run off the end starts again. */
  function Wrap(i: nat, max: nat): nat { if i >= max then 0 else i }

  function ClearCount(bits: seq<bool>): nat {
    if bits == [] then 0 else ClearCount(bits[..|bits| - 1]) + (if bits[|bits| - 1] then 0 else 1)
  }

  /** The bits with n of them, from s on, set to v. */
  function Marked(bits: seq<bool>, s: nat, n: nat, v: bool): (r: seq<bool>)
    requires s + n <= |bits|
    ensures |r| == |bits| && forall i :: 0 <= i < |bits| ==> r[i] == (if s <= i < s + n then v else bits[i])
  {
    seq(|bits|, i requires 0 <= i < |bits| => if s <= i < s + n then v else bits[i])
  }

  lemma {:induction false} FlipCount(bits: seq<bool>, i: nat, v: bool)
    requires i < |bits| && bits[i] != v
    ensures ClearCount(bits[i := v]) == ClearCount(bits) + (if v then -1 else 1)
  {
    var n := |bits| - 1;
    if i == n {
      assert bits[i := v][..n] == bits[..n];
    } else {
      FlipCount(bits[..n], i, v);
      assert bits[i := v][..n] == bits[..n][i := v];
    }
  }

  lemma {:induction false} MarkCount(bits: seq<bool>, s: nat, n: nat, v: bool)
    requires s + n <= |bits| && forall i :: s <= i < s + n ==> bits[i] != v
    ensures ClearCount(Marked(bits, s, n, v)) + (if v then n else 0) == ClearCount(bits) + (if v then 0 else n)
  {
    if n == 0 {
      assert Marked(bits, s, n, v) == bits;
    } else {
      MarkCount(bits, s, n - 1, v);
      FlipCount(Marked(bits, s, n - 1, v), s + n - 1, v);
      assert Marked(bits, s, n, v) == Marked(bits, s, n - 1, v)[s + n - 1 := v];
    }
  }

  lemma {:induction false} AllClear(bits: seq<bool>)
    requires forall i :: 0 <= i < |bits| ==> !bits[i]
    ensures ClearCount(bits) == |bits|
  {
    if bits != [] { AllClear(bits[..|bits| - 1]); }
  }

  // Live ranges.

  predicate Covers(r: (nat, nat), i: nat) { r.0 <= i < r.0 + r.1 }

  /** A bit is set exactly when some live range covers it, and live ranges are disjoint. */
  ghost predicate LiveOk(bits: seq<bool>, live: set<(nat, nat)>) {
    && (forall r :: r in live ==> r.1 > 0 && r.0 + r.1 <= |bits|)
    && (forall i :: 0 <= i < |bits| ==> (bits[i] <==> exists r :: r in live && Covers(r, i)))
    && (forall r, q :: r in live && q in live && r != q ==> r.0 + r.1 <= q.0 || q.0 + q.1 <= r.0)
  }

  lemma LiveAdd(bits: seq<bool>, live: set<(nat, nat)>, s: nat, n: nat)
    requires LiveOk(bits, live) && n > 0 && FreeRun(bits, s, n)
    ensures LiveOk(Marked(bits, s, n, true), live + {(s, n)})
    ensures (s, n) !in live
  {
    var bits', live' := Marked(bits, s, n, true), live + {(s, n)};
    forall i | 0 <= i < |bits'| ensures bits'[i] <==> exists r :: r in live' && Covers(r, i) {
      if s <= i < s + n {
        assert (s, n) in live' && Covers((s, n), i);
      } else if bits[i] {
        var r :| r in live && Covers(r, i);
        assert r in live' && Covers(r, i);
      }
    }
    forall r | r in live ensures r.0 + r.1 <= s || s + n <= r.0 {
      var i := if r.0 <= s then s else r.0;
      assert Covers(r, i) && i < |bits| ==> bits[i];
    }
    assert (s, n) in live ==> Covers((s, n), s);
  }

  /** What is left of a range when n of its bits from s on are given back. */
  function Pieces(r: (nat, nat), s: nat, n: nat): set<(nat, nat)>
    requires r.0 <= s && s + n <= r.0 + r.1
  {
    (if r.0 < s then {(r.0, s - r.0)} else {}) +
    (if s + n < r.0 + r.1 then {(s + n, r.0 + r.1 - (s + n))} else {})
  }

  lemma LiveRemove(bits: seq<bool>, live: set<(nat, nat)>, r: (nat, nat), s: nat, n: nat)
    requires LiveOk(bits, live) && r in live && r.0 <= s && s + n <= r.0 + r.1
    ensures forall i :: s <= i < s + n ==> bits[i]
    ensures LiveOk(Marked(bits, s, n, false), live - {r} + Pieces(r, s, n))
  {
    forall i | s <= i < s + n ensures bits[i] { assert Covers(r, i); }
    var bits', live' := Marked(bits, s, n, false), live - {r} + Pieces(r, s, n);
    forall i | 0 <= i < |bits'| ensures bits'[i] <==> exists q :: q in live' && Covers(q, i) {
      LiveRemoveAt(bits, live, r, s, n, i);
    }
  }

  lemma LiveRemoveAt(bits: seq<bool>, live: set<(nat, nat)>, r: (nat, nat), s: nat, n: nat, i: nat)
    requires LiveOk(bits, live) && r in live && r.0 <= s && s + n <= r.0 + r.1 && i < |bits|
    ensures Marked(bits, s, n, false)[i] <==> exists q :: q in live - {r} + Pieces(r, s, n) && Covers(q, i)
  {
    var live' := live - {r} + Pieces(r, s, n);
    if s <= i < s + n {
      forall q | q in live' ensures !Covers(q, i) {}
    } else if Covers(r, i) {
      assert bits[i];
      var q := if i < s then (r.0, s - r.0) else (s + n, r.0 + r.1 - (s + n));
      assert q in live' && Covers(q, i);
    } else if bits[i] {
      var q :| q in live && Covers(q, i);
      assert q in live' && Covers(q, i);
    } else {
      forall q | q in live' ensures !Covers(q, i) {}
    }
  }

  lemma FirstZeroChosen(bits: seq<bool>, r: nat)
    requires r <= |bits| && (forall i :: 0 <= i < r ==> bits[i]) && (r < |bits| ==> !bits[r])
    ensures r < |bits| ==> Chosen(bits, 0, r, 1, 1) && Possible(bits, 1, 1)
    ensures r == |bits| ==> !Possible(bits, 1, 1)
  {
    forall s | 0 <= s < r ensures !FreeRun(bits, s, 1) { assert bits[s]; }
    if r < |bits| {
      Modular.Unique(1, r, r, 0);
      assert FreeRun(bits, r, 1);
    } else {
      NotPossible(bits, 1, 1);
    }
  }

  class RangeBitmap {
    var table: array<bool>
    var last: nat
    var top: nat
    var avail: nat
    const max: nat
    /** mask + 1 */
    const span: nat
    /** The ranges handed out and not freed. */
    ghost var live: set<(nat, nat)>

    ghost function Bits(): seq<bool>
      reads this, table
      requires max <= table.Length
    {
      table[..max]
    }

    ghost predicate Valid()
      reads this, table
    {
      && 0 < max <= table.Length && table.Length % WORD == 0
      && span > 0 && span % max == 0 && top % max == 0
      && last <= max && LiveOk(Bits(), live) && avail == ClearCount(Bits())
    }

    constructor (num: nat, laps: nat)
      requires num > 0 && laps > 0
      ensures Valid() && max == num && live == {} && avail == num && fresh(table)
    {
      last, top, max, span, avail, live := 0, 0, num, laps * num, num, {};
      table := new bool[AlignUp(num, WORD)](_ => false);
      new;
      AlignUpLeast(num, WORD);
      AllClear(table[..max]);
      Modular.Unique(num, laps * num, laps, 0);
      Modular.Unique(num, 0, 0, 0);
    }

    /** mlx4_find_first_zero_bit, word by word. */
    method FindFirstZero() returns (r: nat)
      requires max <= table.Length && table.Length % WORD == 0
      ensures r <= max && (forall i :: 0 <= i < r ==> table[i]) && (r < max ==> !table[r])
    {
      r := 0;
      while max - r >= WORD
        invariant r <= max && forall i :: 0 <= i < r ==> table[i]
      {
        var found, k := FindZeroInWord(r, WORD);
        if found { return r + k; }
        r := r + WORD;
      }
      var found, k := FindZeroInWord(r, max - r);
      return r + k;
    }

    /** The least clear bit among the first n of a word. */
    method FindZeroInWord(base: nat, n: nat) returns (found: bool, k: nat)
      requires base + n <= table.Length
      ensures k <= n && found == (k < n) && (found ==> !table[base + k])
      ensures forall i :: base <= i < base + k ==> table[i]
    {
      k := 0;
      while k < n && table[base + k]
        invariant k <= n && forall i :: base <= i < base + k ==> table[i]
      {
        k := k + 1;
      }
      found := k < n;
    }

    /** find_aligned_range: the least aligned free run at or above start, if there is one. */
    method FindAlignedRange(start: nat, len: nat, a: nat) returns (found: bool, s: nat)
      requires max <= table.Length && len > 0 && PowerOfTwo(a)
      ensures found ==> start <= s && s % a == 0 && FreeRun(table[..max], s, len)
      ensures found ==> NoneIn(table[..max], start, s, len, a)
      ensures !found ==> NoneIn(table[..max], start, max, len, a)
    {
      s := start;
      while true
        invariant start <= s && NoneIn(table[..max], start, s, len, a)
        decreases max + 1 - s
      {
        AlignUpLeast(s, a);
        s := AlignUp(s, a);
        while s < max && table[s]
          invariant start <= s && s % a == 0 && NoneIn(table[..max], start, s, len, a)
          decreases max - s
        {
          NextAligned(s, a);
          assert !FreeRun(table[..max], s, len);
          s := s + a;
        }
        if s >= max { return false, 0; }
        if s + len > max { return false, 0; }
        var i := s + 1;
        while i < s + len && !table[i]
          invariant s < i <= s + len && forall k :: s <= k < i ==> !table[k]
        {
          i := i + 1;
        }
        if i == s + len { return true, s; }
        assert forall t :: s <= t <= i ==> !FreeRun(table[..max], t, len);
        s := i + 1;
      }
    }

    /** mlx4_bitmap_alloc_range: fails only if no aligned free run exists. The result is the
        run's start plus the current top. */
    method AllocRange(cnt: nat, a: nat) returns (ok: bool, obj: nat, ghost s: nat)
      requires Valid() && cnt > 0 && PowerOfTwo(a)
      modifies this, table
      ensures Valid() && table == old(table)
      ensures ok <==> Possible(old(Bits()), cnt, a)
      ensures !ok ==> live == old(live) && Bits() == old(Bits()) && avail == old(avail)
      ensures ok ==> Chosen(old(Bits()), if cnt == 1 && a == 1 then 0 else old(last), s, cnt, a)
      ensures ok ==> obj == s + top && obj % max == s
      ensures last == if cnt == 1 && a == 1 && ok then Wrap(s + 1, max)
                      else if ok && s == old(last) then Wrap(s + cnt, max) else old(last)
      ensures top == if (cnt == 1 && a == 1) || cnt > max || !NoneIn(old(Bits()), old(last), max, cnt, a) then old(top)
                     else (old(top) + max) % span
      ensures ok ==> live == old(live) + {(s, cnt)} && (s, cnt) !in old(live)
      ensures ok ==> Bits() == Marked(old(Bits()), s, cnt, true) && avail == old(avail) - cnt
    {
      hide LiveOk, ClearCount, Marked;
      if cnt == 1 && a == 1 {
        ok, obj, s := Alloc();
        return;
      }
      s := 0;
      if cnt > max {
        NotPossible(Bits(), cnt, a);
        return false, 0, 0;
      }
      var r: nat;
      ok, r := FindAlignedRange(last, cnt, a);
      if !ok {
        NextTop(top, max, span);
        top := (top + max) % span;
        ok, r := FindAlignedRange(0, cnt, a);
      }
      if !ok {
        NotPossible(Bits(), cnt, a);
        return false, 0, 0;
      }
      assert Chosen(Bits(), last, r, cnt, a);
      s := r;
      Take(r, cnt);
      if r == last {
        last := r + cnt;
        if last >= max { last := 0; }
      }
      WithTop(r, top, max);
      obj := r + top;
    }

    /** mlx4_bitmap_alloc: the first clear bit. */
    method Alloc() returns (ok: bool, obj: nat, ghost s: nat)
      requires Valid()
      modifies this, table
      ensures Valid() && table == old(table)
      ensures ok <==> Possible(old(Bits()), 1, 1)
      ensures !ok ==> live == old(live) && Bits() == old(Bits()) && avail == old(avail)
      ensures ok ==> Chosen(old(Bits()), 0, s, 1, 1) && obj == s + top && obj % max == s
      ensures last == (if ok then Wrap(s + 1, max) else old(last)) && top == old(top)
      ensures ok ==> live == old(live) + {(s, 1)} && (s, 1) !in old(live)
      ensures ok ==> Bits() == Marked(old(Bits()), s, 1, true) && avail == old(avail) - 1
    {
      hide LiveOk, ClearCount, Marked;
      var r := FindFirstZero();
      s := r;
      FirstZeroChosen(Bits(), r);
      if r >= max { return false, 0, s; }
      Take(r, 1);
      last := if r + 1 == max then 0 else r + 1;
      WithTop(r, top, max);
      return true, r + top, s;
    }

    /** The loop that sets the bits, and the count. */
    method Take(r: nat, cnt: nat)
      requires Valid() && cnt > 0 && FreeRun(Bits(), r, cnt)
      modifies this`avail, this`live, table
      ensures Valid() && table == old(table) && live == old(live) + {(r, cnt)} && (r, cnt) !in old(live)
      ensures Bits() == Marked(old(Bits()), r, cnt, true) && avail == old(avail) - cnt
    {
      ghost var bits := Bits();
      for i := 0 to cnt
        invariant unchanged(this) && table[..max] == Marked(bits, r, i, true)
      {
        table[r + i] := true;
      }
      LiveAdd(bits, live, r, cnt);
      MarkCount(bits, r, cnt, true);
      live := live + {(r, cnt)};
      avail := avail - cnt;
    }

    /** The loop that clears the bits, and the count. */
    method Release(ghost r: (nat, nat), s: nat, cnt: nat)
      requires Valid() && r in live && r.0 <= s && s + cnt <= r.0 + r.1
      modifies this`avail, this`live, table
      ensures Valid() && table == old(table) && live == old(live) - {r} + Pieces(r, s, cnt)
      ensures Bits() == Marked(old(Bits()), s, cnt, false) && avail == old(avail) + cnt
    {
      ghost var bits := Bits();
      for i := 0 to cnt
        invariant unchanged(this) && table[..max] == Marked(bits, s, i, false)
      {
        table[s + i] := false;
      }
      LiveRemove(bits, live, r, s, cnt);
      MarkCount(bits, s, cnt, false);
      live := live - {r} + Pieces(r, s, cnt);
      avail := avail + cnt;
    }

    /** mlx4_bitmap_free_range of a live range r or of any part of it, named as AllocRange
        names ranges: what lies outside the part stays live. */
    method FreeRange(obj: nat, cnt: nat, ghost r: (nat, nat))
      requires Valid() && r in live && r.0 <= obj % max && obj % max + cnt <= r.0 + r.1
      modifies this, table
      ensures Valid() && table == old(table) && live == old(live) - {r} + Pieces(r, obj % max, cnt)
      ensures Bits() == Marked(old(Bits()), obj % max, cnt, false) && avail == old(avail) + cnt
      ensures last == (if old(last) < obj % max then old(last) else obj % max) && top == (old(top) + max) % span
    {
      hide LiveOk, ClearCount, Marked, Pieces;
      var s := obj % max;
      Release(r, s, cnt);
      last := if last < s then last else s;
      NextTop(top, max, span);
      top := (top + max) % span;
    }
  }

  lemma NextTop(top: nat, max: nat, span: nat)
    requires max > 0 && span > 0 && span % max == 0 && top % max == 0
    ensures (top + max) % span % max == 0
  {
    var t := top + max;
    Modular.NextLap(max, top);
    var k := t / span;
    assert t == span * k + t % span;
    var a, b := t / max, span / max;
    assert t == max * a && span == max * b;
    assert t % span == max * (a - b * k) by {
      assert span * k == max * (b * k);
    }
    Modular.MultipleOf(a - b * k, max);
    assert a - b * k >= 0;
    Modular.Unique(max, t % span, a - b * k, 0);
  }

  lemma WithTop(r: nat, top: nat, max: nat)
    requires r < max && top % max == 0
    ensures (r + top) % max == r
  {
    var k := top / max;
    assert r + top == max * k + r;
    Modular.Unique(max, r + top, k, r);
  }
}
