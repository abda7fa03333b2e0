/** Backups follow the primary, and no server assertion ever fails. */
module Replication {
  import opened Store
  import opened Protocol
  import opened History
  import opened Invariant
  import opened StepProofs
  import opened CommitProofs
  import opened Serializability

  predicate LocksKey(tx: Tx, k: Key) {
    exists i :: 0 <= i < |tx.ws| && tx.ws[i].st.WLocked? && tx.ws[i].key == k
  }

  /** Under a lock, each backup holds the old value until it applied the update. */
  ghost predicate ItemReplicas(backups: seq<map<Key, Value>>, w: WItem) {
    w.st.WLocked? ==>
      forall r :: 0 <= r < |backups| ==>
        Find(backups[r], w.key) == if r + 1 in w.acks then w.Target() else w.st.val
  }

  ghost predicate ReplicasOk(s: Sys) {
    && (forall c, i :: c in s.txs && 0 <= i < |s.txs[c].ws| ==> ItemReplicas(s.backups, s.txs[c].ws[i]))
    && (forall r, k :: 0 <= r < |s.backups| ==>
          || Find(s.backups[r], k) == Find(s.table.data, k)
          || exists c :: c in s.txs && LocksKey(s.txs[c], k))
  }

  /** The locked items are the same, and an item some backup applied still means the same. */
  predicate SameLocked(ws: seq<WItem>, ws': seq<WItem>) {
    && (forall i :: 0 <= i < |ws| && ws[i].st.WLocked? ==> i < |ws'| && ws'[i].st.WLocked?)
    && (forall i :: 0 <= i < |ws'| && ws'[i].st.WLocked? ==>
          && i < |ws| && ws[i].st == ws'[i].st && ws[i].key == ws'[i].key && ws[i].acks == ws'[i].acks
          && (ws[i].acks == {} || ws[i].Target() == ws'[i].Target()))
  }

  lemma SameReplicas(s: Sys, s': Sys, c: Caller)
    requires ReplicasOk(s) && c in s.txs && c in s'.txs && s'.txs == s.txs[c := s'.txs[c]]
    requires s'.backups == s.backups && s'.table.data == s.table.data
    requires SameLocked(s.txs[c].ws, s'.txs[c].ws)
    ensures ReplicasOk(s')
  {
    forall d, i | d in s'.txs && 0 <= i < |s'.txs[d].ws| ensures ItemReplicas(s'.backups, s'.txs[d].ws[i]) {
      if i < |s.txs[d].ws| { assert ItemReplicas(s.backups, s.txs[d].ws[i]); }
    }
    forall r, k | 0 <= r < |s'.backups| && Find(s'.backups[r], k) != Find(s'.table.data, k)
      ensures exists d :: d in s'.txs && LocksKey(s'.txs[d], k)
    {
      var d :| d in s.txs && LocksKey(s.txs[d], k);
      var i :| 0 <= i < |s.txs[d].ws| && s.txs[d].ws[i].st.WLocked? && s.txs[d].ws[i].key == k;
      assert s'.txs[d].ws[i].st.WLocked? && s'.txs[d].ws[i].key == k;
      assert LocksKey(s'.txs[d], k);
    }
  }

  /** Whoever has an item locked on k holds its bucket. */
  lemma LocksKeyHolds(s: Sys, d: Caller, k: Key)
    requires LocksMatch(s) && d in s.txs && LocksKey(s.txs[d], k)
    ensures HeldBy(s.table, d, k.bucket)
  {
    var i :| 0 <= i < |s.txs[d].ws| && s.txs[d].ws[i].st.WLocked? && s.txs[d].ws[i].key == k;
    ItemHeld(s, d, i);
  }

  lemma LockReplicas(s: Sys, c: Caller, i: nat)
    requires LocksMatch(s) && ReplicasOk(s) && c in s.txs && i < |s.txs[c].ws|
    requires Coherent(s.txs[c], |s.backups|) && s.txs[c].phase.Reading? && s.txs[c].ws[i].st.WSent?
    ensures ReplicasOk(DoServeLock(s, c, s.txs[c], i))
  {
    var tx := s.txs[c];
    var s' := DoServeLock(s, c, tx, i);
    var w := tx.ws[i];
    var w' := s'.txs[c].ws[i];
    ServeLockMoves(s.table, c, w);
    if w'.st.WLocked? {
      forall r | 0 <= r < |s.backups| ensures Find(s.backups[r], w.key) == Find(s.table.data, w.key) {
        if Find(s.backups[r], w.key) != Find(s.table.data, w.key) {
          var d :| d in s.txs && LocksKey(s.txs[d], w.key);
          LocksKeyHolds(s, d, w.key);
          assert false;
        }
      }
      assert ItemReplicas(s'.backups, w');
      NewLockReplicas(s, s', c, i);
    } else {
      assert SameLocked(tx.ws, s'.txs[c].ws);
      SameReplicas(s, s', c);
    }
  }

  lemma NewLockReplicas(s: Sys, s': Sys, c: Caller, i: nat)
    requires ReplicasOk(s) && c in s.txs && c in s'.txs && s'.txs == s.txs[c := s'.txs[c]] && i < |s.txs[c].ws|
    requires s'.backups == s.backups && s'.table.data == s.table.data
    requires !s.txs[c].ws[i].st.WLocked? && |s'.txs[c].ws| == |s.txs[c].ws|
    requires forall j :: 0 <= j < |s.txs[c].ws| && j != i ==> s'.txs[c].ws[j] == s.txs[c].ws[j]
    requires ItemReplicas(s'.backups, s'.txs[c].ws[i])
    ensures ReplicasOk(s')
  {
    forall d, j | d in s'.txs && 0 <= j < |s'.txs[d].ws| ensures ItemReplicas(s'.backups, s'.txs[d].ws[j]) {
      if d != c || j != i { assert ItemReplicas(s.backups, s.txs[d].ws[j]); }
    }
    forall r, k | 0 <= r < |s'.backups| && Find(s'.backups[r], k) != Find(s'.table.data, k)
      ensures exists d :: d in s'.txs && LocksKey(s'.txs[d], k)
    {
      var d :| d in s.txs && LocksKey(s.txs[d], k);
      var j :| 0 <= j < |s.txs[d].ws| && s.txs[d].ws[j].st.WLocked? && s.txs[d].ws[j].key == k;
      assert s'.txs[d].ws[j].st.WLocked? && s'.txs[d].ws[j].key == k;
      assert LocksKey(s'.txs[d], k);
    }
  }

  /** An item gives its lock back: by then every backup holds what the primary now holds. */
  lemma ReleaseReplicas(s: Sys, s': Sys, c: Caller, i: nat)
    requires ReplicasOk(s) && c in s.txs && c in s'.txs && s'.txs == s.txs[c := s'.txs[c]] && i < |s.txs[c].ws|
    requires s.txs[c].ws[i].st.WLocked? && |s'.txs[c].ws| == |s.txs[c].ws| && !s'.txs[c].ws[i].st.WLocked?
    requires forall j :: 0 <= j < |s.txs[c].ws| && j != i ==> s'.txs[c].ws[j] == s.txs[c].ws[j]
    requires s'.backups == s.backups
    requires forall k :: k != s.txs[c].ws[i].key ==> Find(s'.table.data, k) == Find(s.table.data, k)
    requires forall r :: 0 <= r < |s.backups| ==>
               Find(s.backups[r], s.txs[c].ws[i].key) == Find(s'.table.data, s.txs[c].ws[i].key)
    ensures ReplicasOk(s')
  {
    var w := s.txs[c].ws[i];
    forall d, j | d in s'.txs && 0 <= j < |s'.txs[d].ws| ensures ItemReplicas(s'.backups, s'.txs[d].ws[j]) {
      assert ItemReplicas(s.backups, s.txs[d].ws[j]);
    }
    forall r, k | 0 <= r < |s'.backups| && Find(s'.backups[r], k) != Find(s'.table.data, k)
      ensures exists d :: d in s'.txs && LocksKey(s'.txs[d], k)
    {
      var d :| d in s.txs && LocksKey(s.txs[d], k);
      var j :| 0 <= j < |s.txs[d].ws| && s.txs[d].ws[j].st.WLocked? && s.txs[d].ws[j].key == k;
      assert s'.txs[d].ws[j].st.WLocked? && s'.txs[d].ws[j].key == k;
      assert LocksKey(s'.txs[d], k);
    }
  }

  lemma PrimaryReplicas(s: Sys, c: Caller, i: nat)
    requires LocksMatch(s) && ReplicasOk(s) && c in s.txs && TxOk(s, c) && i < |s.txs[c].ws|
    requires s.txs[c].phase.UpdatingPrimary? && s.txs[c].ws[i].st.WLocked?
    ensures ReplicasOk(DoServePrimary(s, c, s.txs[c], i))
    ensures DoServePrimary(s, c, s.txs[c], i).fatal == s.fatal
  {
    var w := s.txs[c].ws[i];
    ItemHeld(s, c, i);
    assert ItemOk(s.table, w);
    PrimaryMoves(s.table, c, w);
    assert ItemReplicas(s.backups, w);
    ReleaseReplicas(s, DoServePrimary(s, c, s.txs[c], i), c, i);
  }

  lemma UnlockReplicas(s: Sys, c: Caller, i: nat)
    requires LocksMatch(s) && ReplicasOk(s) && c in s.txs && TxOk(s, c) && i < |s.txs[c].ws|
    requires s.txs[c].phase.Unlocking? && s.txs[c].ws[i].st.WLocked?
    ensures ReplicasOk(DoServeUnlock(s, c, s.txs[c], i))
    ensures DoServeUnlock(s, c, s.txs[c], i).fatal == s.fatal
  {
    var w := s.txs[c].ws[i];
    ItemHeld(s, c, i);
    assert ItemOk(s.table, w);
    assert ItemReplicas(s.backups, w);
    ReleaseReplicas(s, DoServeUnlock(s, c, s.txs[c], i), c, i);
  }

  /** What an update at one backup changes: that backup's value of the key, and the item's
      acknowledgement. */
  ghost predicate BackupMoves(s: Sys, s': Sys, c: Caller, i: nat, r: nat) {
    && c in s.txs && i < |s.txs[c].ws| && 1 <= r <= |s.backups| && |s'.backups| == |s.backups|
    && var w := s.txs[c].ws[i];
    && s'.table == s.table && s'.fatal == s.fatal
    && s'.txs == s.txs[c := s.txs[c].(ws := s.txs[c].ws[i := w.(acks := w.acks + {r})])]
    && Find(s'.backups[r - 1], w.key) == w.Target()
    && forall q, k :: 0 <= q < |s.backups| && (q != r - 1 || k != w.key) ==>
         Find(s'.backups[q], k) == Find(s.backups[q], k)
  }

  lemma BackupEffect(s: Sys, c: Caller, i: nat, r: nat)
    requires ReplicasOk(s) && c in s.txs && TxOk(s, c) && i < |s.txs[c].ws|
    requires s.txs[c].phase.UpdatingBackups? && r !in s.txs[c].ws[i].acks && 1 <= r <= |s.backups|
    ensures BackupMoves(s, DoServeReplica(s, c, s.txs[c], i, r), c, i, r) && s.txs[c].ws[i].st.WLocked?
  {
    var w := s.txs[c].ws[i];
    assert ItemReplicas(s.backups, w) && ItemOk(s.table, w) && WPhase(s.txs[c].phase, w.st);
    hide TxOk, ReplicasOk, Coherent, ReadOk;
    assert DoServeReplica(s, c, s.txs[c], i, r).backups[r - 1] == Write(s.backups[r - 1], w.key, w.Target());
  }

  lemma BackupItems(s: Sys, s': Sys, c: Caller, i: nat, r: nat, d: Caller, j: nat)
    requires LocksMatch(s) && ReplicasOk(s) && BackupMoves(s, s', c, i, r) && s.txs[c].ws[i].st.WLocked?
    requires TxDistinct(s, c) && d in s.txs && j < |s.txs[d].ws|
    ensures d in s'.txs && j < |s'.txs[d].ws| && ItemReplicas(s'.backups, s'.txs[d].ws[j])
  {
    assert ItemReplicas(s.backups, s.txs[d].ws[j]);
    if s.txs[d].ws[j].st.WLocked? && s.txs[d].ws[j].key == s.txs[c].ws[i].key {
      ItemHeld(s, d, j);
      ItemHeld(s, c, i);
      assert d == c && j == i;
    }
    hide LocksMatch, ReplicasOk;
  }

  predicate TxDistinct(s: Sys, c: Caller)
    requires c in s.txs
  {
    forall i, j :: 0 <= i < j < |s.txs[c].ws| ==> s.txs[c].ws[i].key != s.txs[c].ws[j].key
  }

  lemma BackupElse(s: Sys, s': Sys, c: Caller, i: nat, r: nat, q: nat, k: Key)
    requires ReplicasOk(s) && BackupMoves(s, s', c, i, r) && s.txs[c].ws[i].st.WLocked?
    requires q < |s'.backups| && Find(s'.backups[q], k) != Find(s'.table.data, k)
    ensures exists d :: d in s'.txs && LocksKey(s'.txs[d], k)
  {
    if k == s.txs[c].ws[i].key {
      assert s'.txs[c].ws[i].st.WLocked? && s'.txs[c].ws[i].key == k;
      assert LocksKey(s'.txs[c], k);
    } else {
      assert Find(s'.backups[q], k) == Find(s.backups[q], k);
      var d :| d in s.txs && LocksKey(s.txs[d], k);
      var j :| 0 <= j < |s.txs[d].ws| && s.txs[d].ws[j].st.WLocked? && s.txs[d].ws[j].key == k;
      assert s'.txs[d].ws[j].st.WLocked? && s'.txs[d].ws[j].key == k;
      assert LocksKey(s'.txs[d], k);
    }
  }

  lemma BackupReplicas(s: Sys, c: Caller, i: nat, r: nat)
    requires LocksMatch(s) && ReplicasOk(s) && c in s.txs && TxOk(s, c) && i < |s.txs[c].ws|
    requires s.txs[c].phase.UpdatingBackups? && r !in s.txs[c].ws[i].acks && 1 <= r <= |s.backups|
    ensures ReplicasOk(DoServeReplica(s, c, s.txs[c], i, r))
    ensures DoServeReplica(s, c, s.txs[c], i, r).fatal == s.fatal
  {
    assert TxDistinct(s, c);
    BackupEffect(s, c, i, r);
    var s' := DoServeReplica(s, c, s.txs[c], i, r);
    hide TxOk, LocksMatch, DoServeReplica, ItemReplicas, LocksKey;
    forall d, j | d in s'.txs && 0 <= j < |s'.txs[d].ws| ensures ItemReplicas(s'.backups, s'.txs[d].ws[j]) {
      BackupItems(s, s', c, i, r, d, j);
    }
    forall q, k | 0 <= q < |s'.backups| && Find(s'.backups[q], k) != Find(s'.table.data, k)
      ensures exists d :: d in s'.txs && LocksKey(s'.txs[d], k)
    {
      BackupElse(s, s', c, i, r, q, k);
    }
  }

  predicate MovesLocks(step: Step) {
    step.ServeLock? || step.ServeReplica? || step.ServePrimary? || step.ServeUnlock?
  }

  lemma WriteSetKept(s: Sys, step: Step)
    requires Enabled(s, step) && !MovesLocks(step)
    requires !step.Start? && !step.AddWrite? && !step.SetObj? && !step.DoRead?
    ensures Apply(s, step).txs == s.txs[step.c := Apply(s, step).txs[step.c]]
    ensures Apply(s, step).txs[step.c].ws == s.txs[step.c].ws
    ensures Apply(s, step).backups == s.backups && Apply(s, step).table == s.table && Apply(s, step).fatal == s.fatal
  {
    hide Serve, ServeBackup, SendReads, SendLocks, SendValidation, AfterDecision, FirstBackupBatch, NextBackupBatch;
    hide AllPass, BatchAcked, Uses, SeenBy, WroteBy, ReadResult, Locked;
  }

  lemma ClientReplicas(s: Sys, step: Step)
    requires Enabled(s, step) && Coherent(s.txs[step.c], |s.backups|) && ReplicasOk(s)
    requires step.Start? || step.AddWrite? || step.SetObj? || step.DoRead?
    ensures ReplicasOk(Apply(s, step)) && Apply(s, step).fatal == s.fatal
  {
    var tx := s.txs[step.c];
    var s' := Apply(s, step);
    assert forall i :: 0 <= i < |tx.ws| ==>
             AcksOk(tx.phase, tx.ws[i].acks, |s.backups|) && WPhase(tx.phase, tx.ws[i].st);
    assert SameLocked(tx.ws, s'.txs[step.c].ws);
    SameReplicas(s, s', step.c);
  }

  lemma StepReplicas(s: Sys, step: Step)
    requires Inv(s) && ReplicasOk(s)
    ensures ReplicasOk(Apply(s, step)) && Apply(s, step).fatal == s.fatal
  {
    hide LocksMatch, StoreOk, OpenOk, LogOk, ReplicasOk, ItemOk, ReadOk, StampOk, DecidedOk, Coherent;
    if Enabled(s, step) {
      assert TxOk(s, step.c);
      if step.ServeLock? { LockReplicas(s, step.c, step.i); }
      else if step.ServeReplica? { BackupReplicas(s, step.c, step.i, step.r); }
      else if step.ServePrimary? { PrimaryReplicas(s, step.c, step.i); }
      else if step.ServeUnlock? { UnlockReplicas(s, step.c, step.i); }
      else if step.Start? || step.AddWrite? || step.SetObj? || step.DoRead? { ClientReplicas(s, step); }
      else {
        WriteSetKept(s, step);
        SameReplicas(s, Apply(s, step), step.c);
      }
    }
  }

  lemma {:induction false} RunReplicas(s: Sys, steps: seq<Step>)
    requires Initial(s)
    ensures ReplicasOk(Execute(s, steps)) && !Execute(s, steps).fatal
    ensures |Execute(s, steps).backups| == |s.backups|
  {
    if steps != [] {
      var before := steps[..|steps| - 1];
      RunReplicas(s, before);
      RunKeeps(s, before);
      StepReplicas(Execute(s, before), steps[|steps| - 1]);
      ApplyFixes(Execute(s, before), steps[|steps| - 1]);
    }
  }

  /** In every reachable state: a key whose bucket is unlocked at the primary has the same
      value, or is absent, at the primary and at every backup. */
  lemma ReplicasAgree(s0: Sys, steps: seq<Step>, r: nat, k: Key)
    requires Initial(s0) && r < |s0.backups|
    ensures |Execute(s0, steps).backups| == |s0.backups|
    ensures LockOf(Execute(s0, steps).table, k.bucket).holder.None? ==>
              Find(Execute(s0, steps).backups[r], k) == Find(Execute(s0, steps).table.data, k)
  {
    RunKeeps(s0, steps);
    RunReplicas(s0, steps);
    var s := Execute(s0, steps);
    if LockOf(s.table, k.bucket).holder.None? && Find(s.backups[r], k) != Find(s.table.data, k) {
      var d :| d in s.txs && LocksKey(s.txs[d], k);
      LocksKeyHolds(s, d, k);
      assert false;
    }
  }

  /** In every reachable state: a bucket is held by a caller exactly as often as its
      transaction has locked items not yet released, at most 16 times, and not at all once
      the transaction is over; and no server assertion has failed. */
  lemma LockDiscipline(s0: Sys, steps: seq<Step>, c: Caller, b: nat)
    requires Initial(s0) && c in s0.txs
    ensures c in Execute(s0, steps).txs
    ensures Holds(Execute(s0, steps).table, c, b) == HeldItems(Execute(s0, steps).txs[c].ws, b) <= MAX_MSG_CORO
    ensures Execute(s0, steps).txs[c].phase.Done? ==> !HeldBy(Execute(s0, steps).table, c, b)
    ensures !Execute(s0, steps).fatal
  {
    RunKeeps(s0, steps);
    RunReplicas(s0, steps);
    var s := Execute(s0, steps);
    assert TxOk(s, c);
    HeldItemsBound(s.txs[c].ws, b);
  }

  /** Every locked item holds its bucket and still finds its key as when it was locked:
      present for updates and deletes, absent for inserts. */
  lemma LockedItemFindsKey(s0: Sys, steps: seq<Step>, c: Caller, i: nat)
    requires Initial(s0) && c in Execute(s0, steps).txs && i < |Execute(s0, steps).txs[c].ws|
    requires Execute(s0, steps).txs[c].ws[i].st.WLocked?
    ensures var s := Execute(s0, steps);
            var w := s.txs[c].ws[i];
            && HeldBy(s.table, c, w.key.bucket)
            && Find(s.table.data, w.key) == w.st.val
            && (w.mode.Insert? <==> w.key !in s.table.data)
  {
    RunKeeps(s0, steps);
    var s := Execute(s0, steps);
    assert TxOk(s, c);
    assert ItemOk(s.table, s.txs[c].ws[i]);
    ItemHeld(s, c, i);
  }

  /** With no transaction running, nothing is locked and the primary holds what the history
      leaves. */
  lemma QuiescentPrimary(s: Sys, k: Key)
    requires Inv(s) && forall c :: c in s.txs ==> s.txs[c].phase.Done?
    ensures Find(s.table.data, k) == After(s.init, s.log, |s.log|, k) && LockOf(s.table, k.bucket).holder.None?
  {
    if LockOf(s.table, k.bucket).holder.Some? {
      var c := LockOf(s.table, k.bucket).holder.value;
      assert TxOk(s, c);
      HeldItemsBound(s.txs[c].ws, k.bucket);
      assert false;
    }
  }

  /** When every transaction is over, primary and backups hold exactly what the committed
      transactions, taken in order, leave behind. */
  lemma QuiescentState(s0: Sys, steps: seq<Step>, k: Key)
    requires Initial(s0)
    requires forall c :: c in Execute(s0, steps).txs ==> Execute(s0, steps).txs[c].phase.Done?
    ensures var s := Execute(s0, steps);
            && Find(s.table.data, k) == After(s0.table.data, s.log, |s.log|, k)
            && LockOf(s.table, k.bucket).holder.None?
            && forall r :: 0 <= r < |s.backups| ==> Find(s.backups[r], k) == Find(s.table.data, k)
  {
    RunKeeps(s0, steps);
    RunReplicas(s0, steps);
    assert s0.init == s0.table.data;
    hide Execute, Inv, Initial, ReplicasOk;
    var s := Execute(s0, steps);
    QuiescentPrimary(s, k);
    forall r | 0 <= r < |s.backups| ensures Find(s.backups[r], k) == Find(s.table.data, k) {
      ReplicasAgree(s0, steps, r, k);
    }
  }
}
