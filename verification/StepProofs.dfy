/** Every step of the transaction protocol keeps the invariant. */
module StepProofs {
  import opened Store
  import opened Protocol
  import opened History
  import opened Invariant

  /** The acting caller's part plus the shared parts give the whole invariant. */
  lemma Assemble(s: Sys, s': Sys, c: Caller)
    requires Inv(s) && Frame(s, s', c)
    requires LocksMatch(s') && TxOk(s', c) && StoreOk(s') && OpenOk(s') && LogOk(s')
    ensures Inv(s')
  {
    forall d | d in s'.txs ensures TxOk(s', d) {
      if d != c { FrameTx(s, s', c, d); }
    }
  }

  lemma LocksSame(s: Sys, s': Sys, c: Caller)
    requires LocksMatch(s) && c in s.txs && c in s'.txs && s'.txs == s.txs[c := s'.txs[c]] && s'.table == s.table
    requires forall b :: HeldItems(s'.txs[c].ws, b) == HeldItems(s.txs[c].ws, b)
    ensures LocksMatch(s')
  {
  }

  predicate Pending(log: seq<Entry>, n: nat) {
    n < |log| && log[n].outcome.Open? && log[n].wrote != map[]
  }

  lemma OpenSame(s: Sys, s': Sys, c: Caller)
    requires OpenOk(s) && c in s.txs && c in s'.txs && s'.txs == s.txs[c := s'.txs[c]]
    requires s.txs[c].phase.Validating? ==>
               s'.txs[c].phase == s.txs[c].phase || !Pending(s'.log, s.txs[c].phase.stamp)
    requires forall n: nat :: Pending(s'.log, n) ==>
               || (Pending(s.log, n) && s'.log[n].caller == s.log[n].caller)
               || (s'.log[n].caller == c && s'.txs[c].phase == Validating(n))
    ensures OpenOk(s')
  {
    forall n | 0 <= n < |s'.log| && s'.log[n].outcome.Open? && s'.log[n].wrote != map[]
      ensures s'.log[n].caller in s'.txs && s'.txs[s'.log[n].caller].phase == Validating(n)
    {
      assert Pending(s'.log, n);
    }
  }

  /** A step that changes nothing but the caller's own transaction. */
  lemma Local(s: Sys, c: Caller, tx': Tx)
    requires Inv(s) && c in s.txs
    requires forall b :: HeldItems(tx'.ws, b) == HeldItems(s.txs[c].ws, b)
    requires forall k :: Writing(s.txs[c], k) ==> Writing(tx', k)
    requires s.txs[c].phase.Validating? ==> tx'.phase == s.txs[c].phase
    requires TxOk(WithTx(s, c, tx'), c)
    ensures Inv(WithTx(s, c, tx'))
  {
    hide TxOk, LocksMatch, Writing, EntryOk;
    var s' := WithTx(s, c, tx');
    assert Frame(s, s', c);
    assert StoreOk(s') by {
      forall k | After(s.init, s.log, |s.log|, k) != Find(s.table.data, k)
        ensures exists d :: d in s'.txs && Writing(s'.txs[d], k)
      {
        var d :| d in s.txs && Writing(s.txs[d], k);
        assert Writing(s'.txs[d], k);
      }
    }
    LocksSame(s, s', c);
    Assemble(s, s', c);
  }

  lemma StartKeeps(s: Sys, c: Caller)
    requires Inv(s) && c in s.txs && s.txs[c].phase.Done?
    ensures Inv(WithTx(s, c, Tx(Active, [], [], |s.log|)))
  {
    forall b ensures HeldItems(s.txs[c].ws, b) == 0 { HeldItemsBound(s.txs[c].ws, b); }
    Local(s, c, Tx(Active, [], [], |s.log|));
  }

  lemma AddReadKeeps(s: Sys, c: Caller, k: Key)
    requires Inv(s) && c in s.txs && s.txs[c].phase.Active? && !Uses(s.txs[c], k)
    requires |s.txs[c].rs| + |s.txs[c].ws| < MAX_MSG_CORO
    ensures Inv(WithTx(s, c, s.txs[c].(rs := s.txs[c].rs + [RItem(k, RNew)])))
  {
    var tx := s.txs[c];
    var tx' := tx.(rs := tx.rs + [RItem(k, RNew)]);
    var s' := WithTx(s, c, tx');
    forall i | 0 <= i < |tx'.rs| ensures ReadOk(s', c, tx'.phase, tx'.rs[i]) {
      if i < |tx.rs| { assert ReadOk(s, c, tx.phase, tx.rs[i]); }
    }
    Local(s, c, tx');
  }

  lemma AddWriteKeeps(s: Sys, c: Caller, k: Key, mode: Mode, obj: Value)
    requires Inv(s) && c in s.txs && s.txs[c].phase.Active? && !Uses(s.txs[c], k)
    requires |s.txs[c].rs| + |s.txs[c].ws| < MAX_MSG_CORO
    ensures Inv(WithTx(s, c, s.txs[c].(ws := s.txs[c].ws + [WItem(k, mode, WNew, obj, {})])))
  {
    var tx := s.txs[c];
    var tx' := tx.(ws := tx.ws + [WItem(k, mode, WNew, obj, {})]);
    forall b ensures HeldItems(tx'.ws, b) == HeldItems(tx.ws, b) {
      assert tx'.ws[..|tx.ws|] == tx.ws;
    }
    AddWriteTxOk(s, c, k, mode, obj);
    hide TxOk, LocksMatch, StoreOk, OpenOk, LogOk, HeldItems;
    Local(s, c, tx');
  }

  lemma AddWriteTxOk(s: Sys, c: Caller, k: Key, mode: Mode, obj: Value)
    requires c in s.txs && TxOk(s, c) && s.txs[c].phase.Active? && !Uses(s.txs[c], k)
    requires |s.txs[c].rs| + |s.txs[c].ws| < MAX_MSG_CORO
    ensures TxOk(WithTx(s, c, s.txs[c].(ws := s.txs[c].ws + [WItem(k, mode, WNew, obj, {})])), c)
  {
    var tx := s.txs[c];
    var tx' := tx.(ws := tx.ws + [WItem(k, mode, WNew, obj, {})]);
    var s' := WithTx(s, c, tx');
    assert Distinct(tx');
    forall i | 0 <= i < |tx'.rs| ensures ReadOk(s', c, tx'.phase, tx'.rs[i]) {
      assert ReadOk(s, c, tx.phase, tx.rs[i]);
    }
  }

  lemma SetObjKeeps(s: Sys, c: Caller, i: nat, obj: Value)
    requires Inv(s) && c in s.txs && s.txs[c].phase.Active? && i < |s.txs[c].ws|
    ensures Inv(WithTx(s, c, s.txs[c].(ws := s.txs[c].ws[i := s.txs[c].ws[i].(obj := obj)])))
  {
    var tx := s.txs[c];
    var tx' := tx.(ws := tx.ws[i := tx.ws[i].(obj := obj)]);
    forall b ensures HeldItems(tx'.ws, b) == HeldItems(tx.ws, b) { HeldItemsSet(tx.ws, i, tx'.ws[i], b); }
    CoherentSetWrite(tx, |s.backups|, i, tx'.ws[i]);
    var s' := WithTx(s, c, tx');
    forall i | 0 <= i < |tx'.rs| ensures ReadOk(s', c, tx'.phase, tx'.rs[i]) {
      assert ReadOk(s, c, tx.phase, tx.rs[i]);
    }
    Local(s, c, tx');
  }

  lemma DoReadKeeps(s: Sys, c: Caller)
    requires Inv(s) && c in s.txs && s.txs[c].phase.Active?
    ensures Inv(WithTx(s, c, s.txs[c].(phase := Reading, rs := SendReads(s.txs[c].rs), ws := SendLocks(s.txs[c].ws))))
  {
    var tx := s.txs[c];
    var tx' := tx.(phase := Reading, rs := SendReads(tx.rs), ws := SendLocks(tx.ws));
    forall b ensures HeldItems(tx'.ws, b) == HeldItems(tx.ws, b) { HeldItemsSame(tx.ws, tx'.ws, b); }
    var s' := WithTx(s, c, tx');
    assert Distinct(tx');
    forall i | 0 <= i < |tx'.rs| ensures ReadOk(s', c, tx'.phase, tx'.rs[i]) {
      assert ReadOk(s, c, tx.phase, tx.rs[i]);
    }
    Local(s, c, tx');
  }

  /** Steps that only move to another phase. */
  lemma PhaseKeeps(s: Sys, c: Caller, p: Phase)
    requires Inv(s) && c in s.txs && !s.txs[c].phase.Validating? && !p.Validating?
    requires Coherent(s.txs[c].(phase := p), |s.backups|)
    requires Undecided(p) ==> Undecided(s.txs[c].phase)
    requires Decided(p) ==> Decided(s.txs[c].phase)
    requires Decided(s.txs[c].phase) ==>
               Decided(p) || forall i :: 0 <= i < |s.txs[c].ws| ==> !s.txs[c].ws[i].st.WLocked?
    ensures Inv(WithTx(s, c, s.txs[c].(phase := p)))
  {
    var tx := s.txs[c];
    var tx' := tx.(phase := p);
    var s' := WithTx(s, c, tx');
    if Undecided(p) {
      forall i | 0 <= i < |tx'.rs| ensures ReadOk(s', c, tx'.phase, tx'.rs[i]) {
        assert ReadOk(s, c, tx.phase, tx.rs[i]);
      }
    }
    Local(s, c, tx');
  }

  lemma FinishReadKeeps(s: Sys, c: Caller)
    requires Inv(s) && c in s.txs && s.txs[c].phase.Reading?
    requires forall i :: 0 <= i < |s.txs[c].rs| ==> !s.txs[c].rs[i].st.RSent?
    requires forall i :: 0 <= i < |s.txs[c].ws| ==> !s.txs[c].ws[i].st.WSent?
    ensures Inv(DoFinishRead(s, c, s.txs[c]))
  {
    assert TxOk(s, c);
    hide LocksMatch, StoreOk, OpenOk, LogOk, ItemOk, ReadOk;
    PhaseKeeps(s, c, DoFinishRead(s, c, s.txs[c]).txs[c].phase);
  }

  lemma FinishLogKeeps(s: Sys, c: Caller)
    requires Inv(s) && c in s.txs && s.txs[c].phase.Logging?
    ensures Inv(WithTx(s, c, s.txs[c].(phase := FirstBackupBatch(s.txs[c], |s.backups|))))
  {
    assert TxOk(s, c);
    PhaseKeeps(s, c, FirstBackupBatch(s.txs[c], |s.backups|));
  }

  lemma FinishReplicasKeeps(s: Sys, c: Caller)
    requires Inv(s) && c in s.txs && s.txs[c].phase.UpdatingBackups?
    requires BatchAcked(s.txs[c], s.txs[c].phase.lo, s.txs[c].phase.hi)
    ensures Inv(WithTx(s, c, s.txs[c].(phase := NextBackupBatch(s.txs[c], |s.backups|))))
  {
    assert TxOk(s, c);
    PhaseKeeps(s, c, NextBackupBatch(s.txs[c], |s.backups|));
  }

  lemma EndKeeps(s: Sys, c: Caller, committed: bool)
    requires Inv(s) && c in s.txs && !s.txs[c].phase.Validating?
    requires forall i :: 0 <= i < |s.txs[c].ws| ==> !s.txs[c].ws[i].st.WLocked?
    ensures Inv(WithTx(s, c, s.txs[c].(phase := Done(committed))))
  {
    assert TxOk(s, c);
    PhaseKeeps(s, c, Done(committed));
  }

  lemma AbortKeeps(s: Sys, c: Caller)
    requires Inv(s) && c in s.txs && (s.txs[c].phase.Active? || s.txs[c].phase.MustAbort?)
    requires forall i :: 0 <= i < |s.txs[c].ws| ==> !s.txs[c].ws[i].st.WNew?
    ensures Inv(WithTx(s, c, Abandon(s.txs[c])))
  {
    assert TxOk(s, c);
    hide LocksMatch, StoreOk, OpenOk, LogOk, ItemOk, ReadOk;
    PhaseKeeps(s, c, Abandon(s.txs[c]).phase);
  }

  // ---- Steps at the servers ----

  /** An unlocked or own bucket of a transaction that has not reached validation: the
      history as a whole says what the primary holds. */
  lemma FreshSettled(s: Sys, c: Caller, k: Key)
    requires Inv(s) && c in s.txs && !Decided(s.txs[c].phase) && !s.txs[c].phase.Validating?
    requires !HeldByOther(s.table, c, k.bucket)
    ensures Settled(s.init, s.log, |s.log|, k, Find(s.table.data, k))
  {
    if After(s.init, s.log, |s.log|, k) != Find(s.table.data, k) {
      var d :| d in s.txs && Writing(s.txs[d], k);
      var i :| 0 <= i < |s.txs[d].ws| && s.txs[d].ws[i].st.WLocked? && s.txs[d].ws[i].key == k;
      ItemHeld(s, d, i);
      assert false;
    }
    forall n | 0 <= n < |s.log| && s.log[n].outcome.Open? ensures k !in s.log[n].wrote {
      if k in s.log[n].wrote {
        var d := s.log[n].caller;
        assert TxOk(s, d);
        WroteKey(s.txs[d].ws, k);
        var i :| 0 <= i < |s.txs[d].ws| && s.txs[d].ws[i].key == k;
        ItemHeld(s, d, i);
        assert false;
      }
    }
  }

  lemma {:induction false} WroteKey(ws: seq<WItem>, k: Key)
    requires k in WroteBy(ws)
    ensures exists i :: 0 <= i < |ws| && ws[i].key == k
  {
    var n := |ws| - 1;
    if ws[n].key != k {
      WroteKey(ws[..n], k);
      var i :| 0 <= i < n && ws[..n][i].key == k;
      assert ws[i].key == k;
    }
  }

  /** Appending an undecided entry that writes nothing, or that its maker will validate. */
  lemma AppendOpen(s: Sys, e: Entry)
    requires LogOk(s) && e.outcome.Open? && e.began <= |s.log|
    ensures forall n :: 0 <= n < |s.log| + 1 ==> EntryOk(s.init, s.log + [e], n)
    ensures forall k :: After(s.init, s.log + [e], |s.log| + 1, k) == After(s.init, s.log, |s.log|, k)
  {
    AppendExtends(s.init, s.log, e);
    forall n | 0 <= n < |s.log| ensures EntryOk(s.init, s.log + [e], n) {
      assert EntryOk(s.init, s.log, n);
    }
  }

  /** The execute-phase read of one key that was not locked by another caller. */
  lemma ReadItem(s: Sys, c: Caller, p: Phase, k: Key, junk: nat)
    requires Inv(s) && c in s.txs && s.txs[c].phase.Reading? && p.Reading?
    ensures var st := ReadResult(Serve(s.table, c, GetRdonly(k), junk).1, |s.log|);
            st.RGot? ==>
              var e := Entry(c, map[k := st.val], map[], Open, s.txs[c].began, 0);
              ReadOk(s.(log := s.log + [e]), c, p, RItem(k, st))
  {
    var st := ReadResult(Serve(s.table, c, GetRdonly(k), junk).1, |s.log|);
    if st.RGot? {
      FreshSettled(s, c, k);
      AppendExtends(s.init, s.log, Entry(c, map[k := st.val], map[], Open, s.txs[c].began, 0));
    }
  }

  lemma ReadOkSame(s: Sys, s': Sys, c: Caller, p: Phase, r: RItem)
    requires ReadOk(s, c, p, r)
    requires s'.init == s.init && s'.table == s.table && Extends(s.init, s.log, s'.log)
    ensures ReadOk(s', c, p, r)
  {
  }

  lemma ServeReadKeeps(s: Sys, c: Caller, i: nat, junk: nat)
    requires Inv(s) && c in s.txs && s.txs[c].phase.Reading? && i < |s.txs[c].rs| && s.txs[c].rs[i].st.RSent?
    ensures Inv(DoServeRead(s, c, s.txs[c], i, junk))
  {
    var tx := s.txs[c];
    var k := tx.rs[i].key;
    var st := ReadResult(Serve(s.table, c, GetRdonly(k), junk).1, |s.log|);
    var tx' := tx.(rs := tx.rs[i := RItem(k, st)]);
    if st.RGot? {
      var e := Entry(c, map[k := st.val], map[], Open, tx.began, 0);
      var s' := WithTx(s, c, tx').(log := s.log + [e]);
      ReadItem(s, c, tx.phase, k, junk);
      ProbeKeeps(s, c, i, st, e);
    } else {
      SetReadTxOk(s, WithTx(s, c, tx'), c, i, RItem(k, st));
      Local(s, c, tx');
    }
  }

  lemma AppendFrame(s: Sys, c: Caller, tx': Tx, e: Entry)
    requires c in s.txs
    requires e.outcome.Committed? ==> forall k :: k in e.wrote ==> HeldBy(s.table, c, k.bucket)
    ensures Frame(s, WithTx(s, c, tx').(log := s.log + [e]), c)
  {
    AppendExtends(s.init, s.log, e);
  }

  /** The caller's own part after one read-set item changed and the history grew. */
  lemma SetReadTxOk(s: Sys, s': Sys, c: Caller, i: nat, r: RItem)
    requires c in s.txs && TxOk(s, c) && i < |s.txs[c].rs|
    requires r.key == s.txs[c].rs[i].key && RPhase(s.txs[c].phase, r.st)
    requires s.txs[c].phase.Validating? ==> r.Val() == s.txs[c].rs[i].Val()
    requires s'.init == s.init && s'.table == s.table && |s'.backups| == |s.backups|
    requires s'.log == s.log || (|s'.log| > |s.log| && s.txs[c].phase.Reading?)
    requires Extends(s.init, s.log, s'.log)
    requires ReadOk(s', c, s.txs[c].phase, r)
    requires s'.txs == s.txs[c := s.txs[c].(rs := s.txs[c].rs[i := r])]
    ensures TxOk(s', c)
  {
    var tx := s.txs[c];
    var tx' := s'.txs[c];
    CoherentSetRead(tx, |s.backups|, i, r);
    forall j | 0 <= j < |tx'.rs| && Undecided(tx'.phase) ensures ReadOk(s', c, tx'.phase, tx'.rs[j]) {
      if j != i { ReadOkSame(s, s', c, tx.phase, tx.rs[j]); }
    }
    if tx.phase.Validating? { SeenReadSame(tx.rs, tx'.rs); }
  }

  lemma ProbeKeeps(s: Sys, c: Caller, i: nat, st: RState, e: Entry)
    requires Inv(s) && c in s.txs && s.txs[c].phase.Reading? && i < |s.txs[c].rs| && st.RGot?
    requires e.outcome.Open? && e.wrote == map[] && e.began == s.txs[c].began
    requires ReadOk(s.(log := s.log + [e]), c, s.txs[c].phase, RItem(s.txs[c].rs[i].key, st))
    ensures Inv(WithTx(s, c, s.txs[c].(rs := s.txs[c].rs[i := RItem(s.txs[c].rs[i].key, st)])).(log := s.log + [e]))
  {
    var tx := s.txs[c];
    var r := RItem(tx.rs[i].key, st);
    var s' := WithTx(s, c, tx.(rs := tx.rs[i := r])).(log := s.log + [e]);
    AppendFrame(s, c, s'.txs[c], e);
    SetReadTxOk(s, s', c, i, r);
    ProbeShared(s, s', c, e);
    Assemble(s, s', c);
  }

  lemma ProbeShared(s: Sys, s': Sys, c: Caller, e: Entry)
    requires StoreOk(s) && OpenOk(s) && LogOk(s) && LocksMatch(s)
    requires c in s.txs && c in s'.txs && s'.txs == s.txs[c := s'.txs[c]]
    requires s'.init == s.init && s'.table == s.table && s'.log == s.log + [e]
    requires s.txs[c].phase.Reading? && s'.txs[c].phase.Reading? && s'.txs[c].ws == s.txs[c].ws
    requires e.outcome.Open? && e.wrote == map[] && e.began <= |s.log|
    ensures StoreOk(s') && OpenOk(s') && LogOk(s') && LocksMatch(s')
  {
    AppendOpen(s, e);
    assert StoreOk(s') by { StoreSame(s, s', c); }
    LocksSame(s, s', c);
    assert OpenOk(s') by { OpenSame(s, s', c); }
  }

  /** The history and the data moved together, or not at all, except for the caller's own
      writes in flight. */
  lemma StoreSame(s: Sys, s': Sys, c: Caller)
    requires StoreOk(s) && c in s.txs && s'.txs.Keys == s.txs.Keys && s'.init == s.init
    requires forall d :: d in s.txs && d != c ==> s'.txs[d] == s.txs[d]
    requires forall k :: Writing(s.txs[c], k) ==>
               Writing(s'.txs[c], k) || After(s'.init, s'.log, |s'.log|, k) == Find(s'.table.data, k)
    requires forall k :: !Writing(s.txs[c], k) ==>
               || (After(s'.init, s'.log, |s'.log|, k) == After(s.init, s.log, |s.log|, k)
                   && Find(s'.table.data, k) == Find(s.table.data, k))
               || Writing(s'.txs[c], k)
    ensures StoreOk(s')
  {
    forall k | After(s'.init, s'.log, |s'.log|, k) != Find(s'.table.data, k)
      ensures exists d :: d in s'.txs && Writing(s'.txs[d], k)
    {
      if !Writing(s'.txs[c], k) {
        var d :| d in s.txs && Writing(s.txs[d], k);
        assert Writing(s'.txs[d], k);
      }
    }
  }

  /** The heart of validation: a response that passes settles the value read. Under the
      caller's own lock the version of an absent key is not looked at in earnest, but
      then the lock itself has kept the bucket still since the stamp. */
  lemma ValidateItem(s: Sys, c: Caller, p: Phase, r: RItem, junk: nat)
    requires p.Validating? && r.st.RResent? && ReadOk(s, c, p, r)
    ensures var resp := Serve(s.table, c, GetRdonly(r.key), junk).1;
            ReadOk(s, c, p, r.(st := RChecked(r.st.val, r.st.ver, r.st.probe, resp)))
  {
  }

  lemma ServeValidateKeeps(s: Sys, c: Caller, i: nat, junk: nat)
    requires Inv(s) && c in s.txs && s.txs[c].phase.Validating? && i < |s.txs[c].rs| && s.txs[c].rs[i].st.RResent?
    ensures Inv(DoServeValidate(s, c, s.txs[c], i, junk))
  {
    var tx := s.txs[c];
    var r := tx.rs[i];
    var resp := Serve(s.table, c, GetRdonly(r.key), junk).1;
    var r' := r.(st := RChecked(r.st.val, r.st.ver, r.st.probe, resp));
    ValidateItem(s, c, tx.phase, r, junk);
    SetReadTxOk(s, DoServeValidate(s, c, tx, i, junk), c, i, r');
    Local(s, c, tx.(rs := tx.rs[i := r']));
  }

  lemma {:induction false} SeenReadSame(rs: seq<RItem>, rs': seq<RItem>)
    requires |rs| == |rs'|
    requires forall i :: 0 <= i < |rs| ==> rs[i].key == rs'[i].key && rs[i].Val() == rs'[i].Val()
    ensures SeenRead(rs) == SeenRead(rs')
  {
    if rs != [] { SeenReadSame(rs[..|rs| - 1], rs'[..|rs| - 1]); }
  }

  // ---- Steps that move a lock ----

  /** How the holds of caller c on bucket b moved; all else stands still. */
  ghost predicate HoldsMove(t: Table, t': Table, c: Caller, b: nat, delta: int) {
    && ValidTable(t')
    && (forall d, a :: Holds(t', d, a) == Holds(t, d, a) + if d == c && a == b then delta else 0)
    && (forall a: nat :: LockOf(t', a).holder.Some? ==>
          LockOf(t', a).holder == Some(c) || LockOf(t', a) == LockOf(t, a))
  }

  lemma AcquireMoves(t: Table, c: Caller, b: nat)
    requires ValidTable(t) && !HeldByOther(t, c, b)
    ensures TableMoves(t, Acquire(t, c, b), c) && HoldsMove(t, Acquire(t, c, b), c, b, 1)
    ensures forall a: nat :: Version(Acquire(t, c, b), a) == Version(t, a)
  {
    var t' := Acquire(t, c, b);
    assert LockOf(t', b) == Lock(Version(t, b), Some(c), Holds(t, c, b) + 1);
    assert forall a: nat :: a != b ==> LockOf(t', a) == LockOf(t, a);
  }

  lemma ReleaseMoves(t: Table, c: Caller, b: nat)
    requires ValidTable(t) && HeldBy(t, c, b)
    ensures TableMoves(t, Release(t, c, b), c) && HoldsMove(t, Release(t, c, b), c, b, -1)
  {
    var t' := Release(t, c, b);
    assert forall a: nat :: a != b ==> LockOf(t', a) == LockOf(t, a);
    assert LockOf(t', b) == t'.locks[b];
  }

  /** A lock request that fails after taking the lock: nothing is kept, but a bucket that
      was free has a new version. */
  lemma FailedLockMoves(t: Table, c: Caller, b: nat)
    requires ValidTable(t) && !HeldByOther(t, c, b)
    ensures var t' := Release(Acquire(t, c, b), c, b);
            && t'.data == t.data
            && TableMoves(t, t', c) && HoldsMove(t, t', c, b, 0)
            && (HeldBy(t, c, b) ==> Version(t', b) == Version(t, b))
            && (forall a: nat :: a != b ==> LockOf(t', a) == LockOf(t, a))
  {
    var t1 := Acquire(t, c, b);
    var t' := Release(t1, c, b);
    assert forall a: nat :: a != b ==> LockOf(t', a) == LockOf(t, a);
    assert LockOf(t1, b) == t1.locks[b] && LockOf(t', b) == t'.locks[b];
  }

  lemma LocksMoved(s: Sys, s': Sys, c: Caller, i: nat, w: WItem, delta: int)
    requires LocksMatch(s) && c in s.txs && i < |s.txs[c].ws|
    requires c in s'.txs && s'.txs == s.txs[c := s'.txs[c]] && s'.txs[c].ws == s.txs[c].ws[i := w]
    requires w.key == s.txs[c].ws[i].key
    requires HoldsMove(s.table, s'.table, c, w.key.bucket, delta)
    requires (if w.st.WLocked? then 1 else 0) - (if s.txs[c].ws[i].st.WLocked? then 1 else 0) == delta
    ensures LocksMatch(s')
  {
    forall b ensures HeldItems(s'.txs[c].ws, b) == HeldItems(s.txs[c].ws, b) - Bit(s.txs[c].ws[i], b) + Bit(w, b) {
      HeldItemsSet(s.txs[c].ws, i, w, b);
    }
  }

  /** Buckets the caller held it still holds, at the same version. */
  ghost predicate KeepsOwn(t: Table, t': Table, c: Caller) {
    forall b: nat :: HeldBy(t, c, b) ==> HeldBy(t', c, b) && Version(t', b) == Version(t, b)
  }

  /** What the caller's own lock request means for its own reads. */
  lemma OwnReadMoved(s: Sys, s': Sys, c: Caller, p: Phase, r: RItem)
    requires ReadOk(s, c, p, r) && p.Reading?
    requires s'.init == s.init && s'.log == s.log && s'.table.data == s.table.data
    requires TableMoves(s.table, s'.table, c)
    requires KeepsOwn(s.table, s'.table, c)
    ensures ReadOk(s', c, p, r)
  {
  }

  /** The caller's own part after one write-set item changed. */
  lemma SetWriteTxOk(s: Sys, s': Sys, c: Caller, i: nat, w: WItem)
    requires c in s.txs && TxOk(s, c) && i < |s.txs[c].ws|
    requires w.key == s.txs[c].ws[i].key && WPhase(s.txs[c].phase, w.st) && AcksOk(s.txs[c].phase, w.acks, |s.backups|)
    requires s'.init == s.init && s'.log == s.log && |s'.backups| == |s.backups|
    requires s'.txs == s.txs[c := s.txs[c].(ws := s.txs[c].ws[i := w])]
    requires ItemOk(s'.table, w)
    requires forall k :: k != w.key ==> Find(s'.table.data, k) == Find(s.table.data, k)
    requires !s.txs[c].phase.Validating?
    requires Decided(s.txs[c].phase) && w.st.WLocked? ==>
               s.txs[c].ws[i].st.WLocked? && w.Target() == s.txs[c].ws[i].Target()
    requires Undecided(s.txs[c].phase) ==>
               s.txs[c].phase.Reading? && s'.table.data == s.table.data &&
               TableMoves(s.table, s'.table, c) && KeepsOwn(s.table, s'.table, c)
    ensures TxOk(s', c)
  {
    var tx := s.txs[c];
    var tx' := s'.txs[c];
    CoherentSetWrite(tx, |s.backups|, i, w);
    forall j | 0 <= j < |tx'.ws| ensures ItemOk(s'.table, tx'.ws[j]) {
      assert ItemOk(s.table, tx.ws[j]);
      assert j != i ==> tx.ws[j].key != w.key;
    }
    if Undecided(tx.phase) {
      forall j | 0 <= j < |tx'.rs| ensures ReadOk(s', c, tx'.phase, tx'.rs[j]) {
        OwnReadMoved(s, s', c, tx.phase, tx.rs[j]);
      }
    }
  }

  lemma ServeLockMoves(t: Table, c: Caller, w: WItem)
    requires ValidTable(t)
    ensures var (t', resp) := Serve(t, c, w.LockRequest(), 0);
            var w' := Locked(w, resp);
            && t'.data == t.data && TableMoves(t, t', c) && KeepsOwn(t, t', c)
            && HoldsMove(t, t', c, w.key.bucket, if w'.st.WLocked? then 1 else 0)
            && ItemOk(t', w') && (w'.st.WLocked? || w'.st.WFailed?)
  {
    var b := w.key.bucket;
    var (t', resp) := Serve(t, c, w.LockRequest(), 0);
    if HeldByOther(t, c, b) {
    } else if Locked(w, resp).st.WLocked? {
      AcquireMoves(t, c, b);
    } else {
      FailedLockMoves(t, c, b);
    }
    forall a: nat | HeldBy(t, c, a) ensures HeldBy(t', c, a) {
      assert Holds(t', c, a) >= Holds(t, c, a) > 0;
    }
  }

  lemma ServeLockKeeps(s: Sys, c: Caller, i: nat)
    requires Inv(s) && c in s.txs && s.txs[c].phase.Reading? && i < |s.txs[c].ws| && s.txs[c].ws[i].st.WSent?
    ensures Inv(DoServeLock(s, c, s.txs[c], i))
  {
    var tx := s.txs[c];
    var w := tx.ws[i];
    var b := w.key.bucket;
    var (t, resp) := Serve(s.table, c, w.LockRequest(), 0);
    var w' := Locked(w, resp);
    var s' := DoServeLock(s, c, tx, i);
    ServeLockMoves(s.table, c, w);
    SetWriteTxOk(s, s', c, i, w');
    LocksMoved(s, s', c, i, w', if w'.st.WLocked? then 1 else 0);
    LockShared(s, s', c);
    Assemble(s, s', c);
  }

  /** The shared parts when history and data stand still. */
  lemma LockShared(s: Sys, s': Sys, c: Caller)
    requires StoreOk(s) && OpenOk(s) && LogOk(s)
    requires c in s.txs && c in s'.txs && s'.txs == s.txs[c := s'.txs[c]]
    requires s'.init == s.init && s'.log == s.log && s'.table.data == s.table.data && |s'.backups| == |s.backups|
    requires s'.txs[c].phase == s.txs[c].phase && !Decided(s.txs[c].phase)
    requires TableMoves(s.table, s'.table, c)
    ensures StoreOk(s') && OpenOk(s') && LogOk(s') && Frame(s, s', c)
  {
    assert StoreOk(s') by { StoreSame(s, s', c); }
    assert OpenOk(s') by { OpenSame(s, s', c); }
  }

  lemma ServeUnlockKeeps(s: Sys, c: Caller, i: nat)
    requires Inv(s) && c in s.txs && s.txs[c].phase.Unlocking? && i < |s.txs[c].ws| && s.txs[c].ws[i].st.WLocked?
    ensures Inv(DoServeUnlock(s, c, s.txs[c], i))
  {
    var tx := s.txs[c];
    var w := tx.ws[i];
    var s' := DoServeUnlock(s, c, tx, i);
    ItemHeld(s, c, i);
    ReleaseMoves(s.table, c, w.key.bucket);
    SetWriteTxOk(s, s', c, i, s'.txs[c].ws[i]);
    LocksMoved(s, s', c, i, s'.txs[c].ws[i], -1);
    hide TxOk, LocksMatch, StoreOk, OpenOk, LogOk, Frame;
    LockShared(s, s', c);
    Assemble(s, s', c);
  }
}
