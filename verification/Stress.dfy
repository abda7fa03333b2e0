/** The stress client: transactions that read, delete or insert a whole group of n keys.
    A group is never seen half there, nor with differing values. */
module Stress {
  import opened Store
  import opened Protocol
  import opened History
  import opened Invariant
  import opened StepProofs
  import opened CommitProofs
  import opened Serializability
  import opened Records

  /** Group size, number of populated rows, and the hash that places a row in a bucket. */
  datatype Setup = Setup(n: nat, rows: nat, hash: nat -> nat) {
    function KeyOf(id: nat): Key { Key(hash(id), id) }
    /** What `get_base_key` returns: a multiple of n below rows - n. */
    predicate IsBase(base: nat) { n > 0 && base % n == 0 && base + n < rows }
  }

  predicate Gets(tx: Tx, u: Setup, base: nat) {
    tx.ws == [] && |tx.rs| == u.n && forall i :: 0 <= i < u.n ==> tx.rs[i].key == u.KeyOf(base + i)
  }

  predicate Writes(tx: Tx, u: Setup, base: nat) {
    && tx.rs == [] && |tx.ws| == u.n
    && forall i :: 0 <= i < u.n ==> tx.ws[i].key == u.KeyOf(base + i)
  }

  /** del_N deletes every key of the group; ins_N inserts one value under all of them. */
  predicate Deletes(tx: Tx, u: Setup, base: nat) {
    Writes(tx, u, base) && forall i :: 0 <= i < |tx.ws| ==> tx.ws[i].mode.Delete?
  }

  predicate Inserts(tx: Tx, u: Setup, base: nat) {
    Writes(tx, u, base) && forall i :: 0 <= i < |tx.ws| ==> tx.ws[i].mode.Insert? && tx.ws[i].obj == tx.ws[0].obj
  }

  ghost predicate StressTx(tx: Tx, u: Setup) {
    exists base: nat :: u.IsBase(base) && (Gets(tx, u, base) || Deletes(tx, u, base) || Inserts(tx, u, base))
  }

  /** Every transaction that commits in the run is one of the three. */
  ghost predicate StressRun(s: Sys, steps: seq<Step>, u: Setup) {
    forall i :: 0 <= i < |steps| ==> StressStep(Execute(s, steps[..i]), steps[i], u)
  }

  ghost predicate StressStep(s: Sys, step: Step, u: Setup) {
    !step.CommitSingleRead? && (step.Commit? && Enabled(s, step) ==> StressTx(s.txs[step.c], u))
  }

  /** The populated table: rows 0 .. rows - 1, all with the same value. */
  ghost predicate Populated(s: Sys, u: Setup) {
    exists v :: forall id: nat :: Find(s.table.data, u.KeyOf(id)) == if id < u.rows then Some(v) else None
  }

  /** An entry writes nothing, or the same to every key of one group and nothing else. */
  ghost predicate GroupWrite(wrote: map<Key, Option<Value>>, u: Setup) {
    wrote == map[] || exists base: nat :: u.IsBase(base) && WritesGroup(wrote, u, base)
  }

  predicate WritesGroup(wrote: map<Key, Option<Value>>, u: Setup, base: nat) {
    && (forall k :: k in wrote ==> base <= k.id < base + u.n && k == u.KeyOf(k.id))
    && u.KeyOf(base) in wrote
    && (forall id: nat :: base <= id < base + u.n ==>
          u.KeyOf(id) in wrote && wrote[u.KeyOf(id)] == wrote[u.KeyOf(base)])
  }

  ghost predicate GroupLog(log: seq<Entry>, u: Setup) { forall n :: 0 <= n < |log| ==> GroupWrite(log[n].wrote, u) }

  lemma WroteGroup(tx: Tx, u: Setup, base: nat)
    requires u.n > 0 && (Deletes(tx, u, base) || Inserts(tx, u, base))
    ensures WritesGroup(WroteBy(tx.ws), u, base)
  {
    var m := WroteBy(tx.ws);
    forall k | k in m ensures base <= k.id < base + u.n && k == u.KeyOf(k.id) {
      WroteKey(tx.ws, k);
      var i :| 0 <= i < |tx.ws| && tx.ws[i].key == k;
      assert k == u.KeyOf(base + i);
    }
    assert tx.ws[0].key == u.KeyOf(base + 0);
    WroteAt(tx.ws, 0);
    forall id: nat | base <= id < base + u.n
      ensures u.KeyOf(id) in m && m[u.KeyOf(id)] == m[u.KeyOf(base)]
    {
      assert tx.ws[id - base].key == u.KeyOf(base + (id - base));
      WroteAt(tx.ws, id - base);
    }
  }

  lemma CommitGroup(s: Sys, c: Caller, u: Setup)
    requires c in s.txs && StressTx(s.txs[c], u) && GroupLog(s.log, u)
    ensures GroupLog(DoCommit(s, c, s.txs[c]).log, u)
  {
    var tx := s.txs[c];
    var base: nat :| u.IsBase(base) && (Gets(tx, u, base) || Deletes(tx, u, base) || Inserts(tx, u, base));
    if !Gets(tx, u, base) { WroteGroup(tx, u, base); }
  }

  lemma StepGroup(s: Sys, step: Step, u: Setup)
    requires StressStep(s, step, u) && GroupLog(s.log, u)
    ensures GroupLog(Apply(s, step).log, u)
  {
    if Enabled(s, step) {
      if step.Commit? { CommitGroup(s, step.c, u); }
      else if !step.ServeRead? && !step.FinishValidate? { LogKept(s, step); }
    }
  }

  lemma {:induction false} RunGroup(s: Sys, steps: seq<Step>, u: Setup)
    requires Initial(s) && StressRun(s, steps, u)
    ensures GroupLog(Execute(s, steps).log, u)
  {
    if steps != [] {
      var before := steps[..|steps| - 1];
      forall i | 0 <= i < |before| ensures StressStep(Execute(s, before[..i]), before[i], u) {
        assert before[..i] == steps[..i];
      }
      RunGroup(s, before, u);
      StepGroup(Execute(s, before), steps[|steps| - 1], u);
    }
  }

  lemma {:induction false} NextMultiple(n: nat, x: nat, y: nat)
    requires x < y
    ensures n * x + n <= n * y
  {
    if x + 1 == y {
      assert n * y == n * x + n;
    } else {
      NextMultiple(n, x, y - 1);
      assert n * y == n * (y - 1) + n;
    }
  }

  lemma SameGroup(u: Setup, a: nat, b: nat, id: nat)
    requires u.IsBase(a) && u.IsBase(b) && a <= id < a + u.n && b <= id < b + u.n
    ensures a == b
  {
    var n, x, y := u.n, a / u.n, b / u.n;
    assert a == n * x && b == n * y;
    if x < y { NextMultiple(n, x, y); }
    if y < x { NextMultiple(n, y, x); }
  }

  /** Whatever prefix of the history is replayed, all keys of a group agree. */
  lemma {:induction false} GroupAgrees(s0: Sys, log: seq<Entry>, m: nat, u: Setup, base: nat, i: nat)
    requires Populated(s0, u) && GroupLog(log, u) && m <= |log| && u.IsBase(base) && i < u.n
    ensures After(s0.table.data, log, m, u.KeyOf(base + i)) == After(s0.table.data, log, m, u.KeyOf(base))
  {
    if m > 0 {
      GroupAgrees(s0, log, m - 1, u, base, i);
      var w := log[m - 1].wrote;
      assert GroupWrite(w, u);
      if w != map[] {
        var b: nat :| u.IsBase(b) && WritesGroup(w, u, b);
        if u.KeyOf(base + i) in w { SameGroup(u, base, b, base + i); }
        if u.KeyOf(base) in w { SameGroup(u, base, b, base); }
        if b == base { assert u.KeyOf(base + i) in w; }
      }
    }
  }

  lemma {:induction false} SeenReadAt(rs: seq<RItem>, i: nat)
    requires i < |rs| && forall a, b :: 0 <= a < b < |rs| ==> rs[a].key != rs[b].key
    ensures rs[i].key in SeenRead(rs) && SeenRead(rs)[rs[i].key] == rs[i].Val()
  {
    if i < |rs| - 1 { SeenReadAt(rs[..|rs| - 1], i); }
  }

  /** Every committed get_N, in any run mixing get_N, del_N and ins_N, saw all keys of its
      group with one value, or none of them. */
  lemma GetSeesWholeGroup(s0: Sys, steps: seq<Step>, u: Setup, c: Caller, base: nat, i: nat)
    requires Initial(s0) && Populated(s0, u) && StressRun(s0, steps, u)
    requires c in Execute(s0, steps).txs && Succeeded(Execute(s0, steps).txs[c].phase)
    requires u.IsBase(base) && i < u.n && Gets(Execute(s0, steps).txs[c], u, base)
    ensures Execute(s0, steps).txs[c].rs[i].Val() == Execute(s0, steps).txs[c].rs[0].Val()
  {
    var s := Execute(s0, steps);
    var rs := s.txs[c].rs;
    CommittedIsRecorded(s0, steps, c);
    RunGroup(s0, steps, u);
    RunKeeps(s0, steps);
    assert TxOk(s, c);
    SeenReadAt(rs, i);
    SeenReadAt(rs, 0);
    assert rs[0].key == u.KeyOf(base + 0) && rs[i].key == u.KeyOf(base + i);
    var n :| 0 <= n < |s.log| && RecordAt(s.log, n, c, s.txs[c]) &&
             forall k :: k in SeenBy(s.txs[c]) ==> After(s0.table.data, s.log, n, k) == SeenBy(s.txs[c])[k];
    GroupAgrees(s0, s.log, n, u, base, i);
  }
}
