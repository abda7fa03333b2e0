/** The commit phase keeps the invariant: the stamp, the decision, and the updates. */
module CommitProofs {
  import opened Store
  import opened Protocol
  import opened History
  import opened Invariant
  import opened StepProofs

  // ---- Steps of the commit phase ----

  lemma ServePrimaryKeeps(s: Sys, c: Caller, i: nat)
    requires Inv(s) && c in s.txs && s.txs[c].phase.UpdatingPrimary? && i < |s.txs[c].ws| && s.txs[c].ws[i].st.WLocked?
    ensures Inv(DoServePrimary(s, c, s.txs[c], i))
  {
    var tx := s.txs[c];
    var w := tx.ws[i];
    var s' := DoServePrimary(s, c, tx, i);
    var w' := s'.txs[c].ws[i];
    ItemHeld(s, c, i);
    assert ItemOk(s.table, w);
    PrimaryMoves(s.table, c, w);
    SetWriteTxOk(s, s', c, i, w');
    LocksMoved(s, s', c, i, w', -1);
    PrimaryShared(s, s', c, i);
    Assemble(s, s', c);
  }

  lemma PrimaryMoves(t: Table, c: Caller, w: WItem)
    requires ValidTable(t) && HeldBy(t, c, w.key.bucket)
    requires w.st.WLocked? && ItemOk(t, w)
    ensures var (t', resp) := Serve(t, c, w.UpdateRequest(), 0);
            && !resp.Fatal?
            && TableMoves(t, t', c) && HoldsMove(t, t', c, w.key.bucket, -1)
            && Find(t'.data, w.key) == w.Target()
            && forall k :: k != w.key ==> Find(t'.data, k) == Find(t.data, k)
    requires w.mode.Delete? ==> w.st.val.Some?
  {
    var t1 := t.(data := Write(t.data, w.key, w.Target()));
    assert forall b: nat :: LockOf(t1, b) == LockOf(t, b);
    assert ValidTable(t1);
    ReleaseMoves(t1, c, w.key.bucket);
    assert forall d, b :: Holds(t1, d, b) == Holds(t, d, b);
  }

  lemma PrimaryShared(s: Sys, s': Sys, c: Caller, i: nat)
    requires StoreOk(s) && OpenOk(s) && LogOk(s) && c in s.txs && i < |s.txs[c].ws|
    requires TxOk(s, c) && s.txs[c].phase.UpdatingPrimary? && s.txs[c].ws[i].st.WLocked?
    requires HeldBy(s.table, c, s.txs[c].ws[i].key.bucket)
    requires c in s'.txs && s'.txs == s.txs[c := s'.txs[c]] && s'.txs[c].phase == s.txs[c].phase
    requires |s'.txs[c].ws| == |s.txs[c].ws|
    requires forall j :: 0 <= j < |s.txs[c].ws| && j != i ==> s'.txs[c].ws[j] == s.txs[c].ws[j]
    requires s'.init == s.init && s'.log == s.log && |s'.backups| == |s.backups|
    requires Find(s'.table.data, s.txs[c].ws[i].key) == s.txs[c].ws[i].Target()
    requires forall k :: k != s.txs[c].ws[i].key ==> Find(s'.table.data, k) == Find(s.table.data, k)
    requires TableMoves(s.table, s'.table, c)
    ensures StoreOk(s') && OpenOk(s') && LogOk(s') && Frame(s, s', c)
  {
    var tx := s.txs[c];
    var w := tx.ws[i];
    assert After(s.init, s.log, |s.log|, w.key) == w.Target();
    assert StoreOk(s') by {
      forall k | k != w.key && Writing(tx, k) ensures Writing(s'.txs[c], k) {
        var j :| 0 <= j < |tx.ws| && tx.ws[j].st.WLocked? && tx.ws[j].key == k;
        assert s'.txs[c].ws[j] == tx.ws[j];
      }
      assert Writing(tx, w.key);
      StoreSame(s, s', c);
    }
    assert OpenOk(s') by { OpenSame(s, s', c); }
  }

  lemma ServeReplicaKeeps(s: Sys, c: Caller, i: nat, r: nat)
    requires Inv(s) && c in s.txs && s.txs[c].phase.UpdatingBackups? && i < |s.txs[c].ws|
    requires s.txs[c].phase.lo <= r < s.txs[c].phase.hi && 1 <= r <= |s.backups|
    ensures Inv(DoServeReplica(s, c, s.txs[c], i, r))
  {
    var tx := s.txs[c];
    var w := tx.ws[i].(acks := tx.ws[i].acks + {r});
    var tx' := tx.(ws := tx.ws[i := w]);
    var s1 := WithTx(s, c, tx');
    assert ItemOk(s.table, tx.ws[i]);
    SetWriteTxOk(s, s1, c, i, w);
    forall b ensures HeldItems(tx'.ws, b) == HeldItems(tx.ws, b) { HeldItemsSet(tx.ws, i, w, b); }
    forall k | Writing(tx, k) ensures Writing(tx', k) {
      var j :| 0 <= j < |tx.ws| && tx.ws[j].st.WLocked? && tx.ws[j].key == k;
      assert tx'.ws[j].st.WLocked? && tx'.ws[j].key == k;
    }
    Local(s, c, tx');
    BackupsUnseen(s1, DoServeReplica(s, c, tx, i, r));
  }

  lemma BackupsUnseen(s: Sys, s': Sys)
    requires Inv(s) && s' == s.(backups := s'.backups, fatal := s'.fatal) && |s'.backups| == |s.backups|
    ensures Inv(s')
  {
    forall c | c in s'.txs ensures TxOk(s', c) {
      assert TxOk(s, c);
      forall i | 0 <= i < |s.txs[c].rs| && Undecided(s.txs[c].phase)
        ensures ReadOk(s', c, s.txs[c].phase, s.txs[c].rs[i])
      {
        ReadOkSame(s, s', c, s.txs[c].phase, s.txs[c].rs[i]);
      }
    }
  }

  // ---- The moment of the stamp, and the decision ----

  lemma {:induction false} WroteAt(ws: seq<WItem>, i: nat)
    requires i < |ws| && forall a, b :: 0 <= a < b < |ws| ==> ws[a].key != ws[b].key
    ensures ws[i].key in WroteBy(ws) && WroteBy(ws)[ws[i].key] == ws[i].Target()
  {
    if i < |ws| - 1 { WroteAt(ws[..|ws| - 1], i); }
  }

  lemma {:induction false} SeenLockedKey(ws: seq<WItem>, k: Key)
    requires k in SeenLocked(ws)
    ensures exists i :: 0 <= i < |ws| && ws[i].key == k && SeenLocked(ws)[k] == ws[i].Val()
  {
    var n := |ws| - 1;
    if ws[n].key != k {
      SeenLockedKey(ws[..n], k);
      var i :| 0 <= i < n && ws[..n][i].key == k && SeenLocked(ws[..n])[k] == ws[..n][i].Val();
      assert ws[i].key == k && SeenLocked(ws)[k] == ws[i].Val();
    } else {
      assert SeenLocked(ws)[k] == ws[n].Val();
    }
  }

  lemma {:induction false} SeenReadKey(rs: seq<RItem>, k: Key)
    requires k in SeenRead(rs)
    ensures exists i :: 0 <= i < |rs| && rs[i].key == k && SeenRead(rs)[k] == rs[i].Val()
  {
    var n := |rs| - 1;
    if rs[n].key != k {
      SeenReadKey(rs[..n], k);
      var i :| 0 <= i < n && rs[..n][i].key == k && SeenRead(rs[..n])[k] == rs[..n][i].Val();
      assert rs[i].key == k && SeenRead(rs)[k] == rs[i].Val();
    } else {
      assert SeenRead(rs)[k] == rs[n].Val();
    }
  }

  lemma {:induction false} WroteSeen(ws: seq<WItem>)
    ensures WroteBy(ws).Keys == SeenLocked(ws).Keys
  {
    if ws != [] { WroteSeen(ws[..|ws| - 1]); }
  }

  /** All that a transaction saw is settled at n once each of its items is. */
  lemma SeenSettled(init: map<Key, Value>, log: seq<Entry>, n: nat, tx: Tx)
    requires forall i :: 0 <= i < |tx.rs| ==> Settled(init, log, n, tx.rs[i].key, tx.rs[i].Val())
    requires forall i :: 0 <= i < |tx.ws| ==> Settled(init, log, n, tx.ws[i].key, tx.ws[i].Val())
    ensures forall k :: k in SeenBy(tx) ==> Settled(init, log, n, k, SeenBy(tx)[k])
    ensures WroteBy(tx.ws).Keys <= SeenBy(tx).Keys
  {
    forall k | k in SeenBy(tx) ensures Settled(init, log, n, k, SeenBy(tx)[k]) {
      if k in SeenLocked(tx.ws) {
        SeenLockedKey(tx.ws, k);
      } else {
        SeenReadKey(tx.rs, k);
      }
    }
    WroteSeen(tx.ws);
  }

  /** At the stamp, a read whose bucket has not moved saw what the history holds there. */
  lemma ResendItem(s: Sys, s': Sys, c: Caller, r: RItem, e: Entry)
    requires Inv(s) && c in s.txs && s.txs[c].phase.Active?
    requires r.st.RGot? && ReadOk(s, c, Active, r)
    requires s'.init == s.init && s'.table == s.table && s'.log == s.log + [e]
    ensures ReadOk(s', c, Validating(|s.log|), r.(st := RResent(r.st.val, r.st.ver, r.st.probe)))
  {
    AppendExtends(s.init, s.log, e);
    if !HeldByOther(s.table, c, r.key.bucket) { FreshSettled(s, c, r.key); }
  }

  lemma LockedSettled(s: Sys, c: Caller, e: Entry)
    requires Inv(s) && c in s.txs && s.txs[c].phase.Active?
    requires forall i :: 0 <= i < |s.txs[c].ws| ==> s.txs[c].ws[i].st.WLocked?
    ensures forall i :: 0 <= i < |s.txs[c].ws| ==>
              Settled(s.init, s.log + [e], |s.log|, s.txs[c].ws[i].key, s.txs[c].ws[i].Val())
  {
    AppendExtends(s.init, s.log, e);
    var tx := s.txs[c];
    assert TxOk(s, c);
    forall i | 0 <= i < |tx.ws| ensures Settled(s.init, s.log + [e], |s.log|, tx.ws[i].key, tx.ws[i].Val()) {
      ItemHeld(s, c, i);
      assert ItemOk(s.table, tx.ws[i]);
      FreshSettled(s, c, tx.ws[i].key);
    }
  }

  lemma StampCoherent(tx: Tx, f: nat, n: nat)
    requires Coherent(tx, f) && tx.phase.Active?
    requires forall i :: 0 <= i < |tx.rs| ==> tx.rs[i].st.RGot?
    requires forall i :: 0 <= i < |tx.ws| ==> tx.ws[i].st.WLocked?
    ensures Coherent(tx.(phase := Validating(n), rs := SendValidation(tx.rs)), f)
    ensures SeenBy(tx.(phase := Validating(n), rs := SendValidation(tx.rs))) == SeenBy(tx)
  {
    var rs := SendValidation(tx.rs);
    assert forall i :: 0 <= i < |tx.rs| ==> rs[i].key == tx.rs[i].key && rs[i].st.RResent?;
    SeenReadSame(tx.rs, rs);
  }

  /** Everything a transaction that starts validation needs; `e` is its history entry. */
  lemma StampTxOk(s: Sys, s': Sys, c: Caller, e: Entry)
    requires Inv(s) && c in s.txs && s.txs[c].phase.Active?
    requires forall i :: 0 <= i < |s.txs[c].rs| ==> s.txs[c].rs[i].st.RGot?
    requires forall i :: 0 <= i < |s.txs[c].ws| ==> s.txs[c].ws[i].st.WLocked?
    requires e == Entry(c, SeenBy(s.txs[c]), WroteBy(s.txs[c].ws), Open, s.txs[c].began, 0)
    requires s' == WithTx(s, c, s.txs[c].(phase := Validating(|s.log|),
                                   rs := SendValidation(s.txs[c].rs))).(log := s.log + [e])
    ensures TxOk(s', c)
  {
    var tx := s.txs[c];
    var tx' := s'.txs[c];
    assert TxOk(s, c);
    StampCoherent(tx, |s.backups|, |s.log|);
    LockedSettled(s, c, e);
    forall i | 0 <= i < |tx'.rs| ensures ReadOk(s', c, tx'.phase, tx'.rs[i]) {
      assert ReadOk(s, c, tx.phase, tx.rs[i]);
      ResendItem(s, s', c, tx.rs[i], e);
    }
  }

  lemma StampShared(s: Sys, s': Sys, c: Caller, e: Entry)
    requires StoreOk(s) && OpenOk(s) && LogOk(s) && LocksMatch(s)
    requires c in s.txs && c in s'.txs && s'.txs == s.txs[c := s'.txs[c]]
    requires s'.init == s.init && s'.table == s.table && s'.log == s.log + [e] && |s'.backups| == |s.backups|
    requires s.txs[c].phase.Active? && s'.txs[c].phase == Validating(|s.log|) && s'.txs[c].ws == s.txs[c].ws
    requires e.outcome.Open? && e.caller == c && e.began <= |s.log|
    ensures StoreOk(s') && OpenOk(s') && LogOk(s') && LocksMatch(s')
  {
    AppendOpen(s, e);
    assert StoreOk(s') by { StoreSame(s, s', c); }
    LocksSame(s, s', c);
    assert OpenOk(s') by { OpenSame(s, s', c); }
  }

  lemma StampKeeps(s: Sys, c: Caller)
    requires Inv(s) && c in s.txs && s.txs[c].phase.Active? && |s.txs[c].rs| > 0
    requires forall i :: 0 <= i < |s.txs[c].rs| ==> s.txs[c].rs[i].st.RGot?
    requires forall i :: 0 <= i < |s.txs[c].ws| ==> s.txs[c].ws[i].st.WLocked?
    ensures Inv(DoCommit(s, c, s.txs[c]))
  {
    var tx := s.txs[c];
    var e := Entry(c, SeenBy(tx), WroteBy(tx.ws), Open, tx.began, 0);
    var s' := DoCommit(s, c, tx);
    AppendFrame(s, c, s'.txs[c], e);
    StampTxOk(s, s', c, e);
    StampShared(s, s', c, e);
    Assemble(s, s', c);
  }

  /** A transaction with an empty read set decides at once. */
  lemma BlindKeeps(s: Sys, c: Caller)
    requires Inv(s) && c in s.txs && s.txs[c].phase.Active? && |s.txs[c].rs| == 0
    requires forall i :: 0 <= i < |s.txs[c].ws| ==> s.txs[c].ws[i].st.WLocked?
    ensures Inv(DoCommit(s, c, s.txs[c]))
  {
    var tx := s.txs[c];
    var e := Entry(c, SeenBy(tx), WroteBy(tx.ws), Committed, tx.began, |s.log| + 1);
    var s' := DoCommit(s, c, tx);
    assert TxOk(s, c);
    LockedSettled(s, c, e);
    SeenSettled(s.init, s'.log, |s.log|, tx);
    forall k | k in e.wrote ensures HeldBy(s.table, c, k.bucket) {
      WroteKey(tx.ws, k);
      var i :| 0 <= i < |tx.ws| && tx.ws[i].key == k;
      ItemHeld(s, c, i);
    }
    AppendFrame(s, c, s'.txs[c], e);
    assert TxOk(s', c) by { BlindTxOk(s, s', c, e); }
    BlindShared(s, s', c, e);
    Assemble(s, s', c);
  }

  lemma BlindTxOk(s: Sys, s': Sys, c: Caller, e: Entry)
    requires c in s.txs && TxOk(s, c) && s.txs[c].phase.Active? && |s.txs[c].rs| == 0
    requires forall i :: 0 <= i < |s.txs[c].ws| ==> s.txs[c].ws[i].st.WLocked?
    requires e.outcome.Committed? && e.wrote == WroteBy(s.txs[c].ws)
    requires s' == WithTx(s, c, s.txs[c].(phase := AfterDecision(s.txs[c], |s.backups|))).(log := s.log + [e])
    ensures TxOk(s', c)
  {
    var tx := s.txs[c];
    forall i | 0 <= i < |tx.ws| ensures After(s'.init, s'.log, |s'.log|, tx.ws[i].key) == tx.ws[i].Target() {
      WroteAt(tx.ws, i);
    }
  }

  lemma BlindShared(s: Sys, s': Sys, c: Caller, e: Entry)
    requires StoreOk(s) && OpenOk(s) && LogOk(s) && LocksMatch(s)
    requires c in s.txs && s.txs[c].phase.Active? && e.outcome.Committed? && e.wrote == WroteBy(s.txs[c].ws)
    requires s' == WithTx(s, c, s.txs[c].(phase := AfterDecision(s.txs[c], |s.backups|))).(log := s.log + [e])
    requires forall i :: 0 <= i < |s.txs[c].ws| ==> s.txs[c].ws[i].st.WLocked?
    requires EntryOk(s'.init, s'.log, |s.log|)
    ensures StoreOk(s') && OpenOk(s') && LogOk(s') && LocksMatch(s')
  {
    var tx := s.txs[c];
    AppendExtends(s.init, s.log, e);
    assert StoreOk(s') by {
      forall k | k in e.wrote ensures Writing(s'.txs[c], k) {
        WroteKey(tx.ws, k);
        var i :| 0 <= i < |tx.ws| && tx.ws[i].key == k;
        assert s'.txs[c].ws[i].st.WLocked? && s'.txs[c].ws[i].key == k;
      }
      StoreSame(s, s', c);
    }
    LocksSame(s, s', c);
    assert OpenOk(s') by { OpenSame(s, s', c); }
    forall n | 0 <= n < |s'.log| ensures EntryOk(s'.init, s'.log, n) {
      if n < |s.log| { assert EntryOk(s.init, s.log, n); }
    }
  }

  /** A successful validation makes the entry's writes part of the history. No committed
      entry behind it writes the same keys, since those transactions found them settled. */
  lemma DecideHistory(s: Sys, c: Caller, k: Key)
    requires LogOk(s) && c in s.txs && TxOk(s, c) && s.txs[c].phase.Validating?
    ensures var n := s.txs[c].phase.stamp;
            var log' := SetOutcome(s.log, n, Committed);
            After(s.init, log', |log'|, k) ==
              if k in WroteBy(s.txs[c].ws) then WroteBy(s.txs[c].ws)[k] else After(s.init, s.log, |s.log|, k)
  {
    var n := s.txs[c].phase.stamp;
    if k in WroteBy(s.txs[c].ws) {
      forall j | n < j < |s.log| && s.log[j].outcome.Committed? ensures k !in s.log[j].wrote {
        assert EntryOk(s.init, s.log, j);
        assert k in s.log[j].seen ==> Settled(s.init, s.log, j, k, s.log[j].seen[k]);
      }
      DecideWrites(s.init, s.log, n, |s.log|, k);
    } else {
      DecideAfter(s.init, s.log, n, Committed, |s.log|, k);
    }
  }

  lemma DecideLog(s: Sys, n: nat, o: Outcome)
    requires LogOk(s) && n < |s.log| && !o.Open?
    requires s.log[n].outcome.Open? || s.log[n].wrote == map[]
    requires o.Committed? ==>
               && s.log[n].wrote.Keys <= s.log[n].seen.Keys
               && forall k :: k in s.log[n].seen ==> Settled(s.init, s.log, n, k, s.log[n].seen[k])
    ensures forall s': Sys :: s'.init == s.init && s'.log == SetOutcome(s.log, n, o) ==> LogOk(s')
  {
    DecideExtends(s.init, s.log, n, o);
    forall j | 0 <= j < |s.log| ensures EntryOk(s.init, SetOutcome(s.log, n, o), j) {
      assert EntryOk(s.init, s.log, j);
    }
  }

  lemma DecideFrame(s: Sys, s': Sys, c: Caller, o: Outcome)
    requires LocksMatch(s) && (forall d :: d in s.txs ==> StampOk(s, d, s.txs[d]))
    requires c in s.txs && s.txs[c].phase.Validating? && !o.Open?
    requires forall i :: 0 <= i < |s.txs[c].ws| ==> s.txs[c].ws[i].st.WLocked?
    requires c in s'.txs && s'.txs == s.txs[c := s'.txs[c]]
    requires s'.init == s.init && s'.table == s.table && |s'.backups| == |s.backups|
    requires s'.log == SetOutcome(s.log, s.txs[c].phase.stamp, o)
    ensures Frame(s, s', c)
  {
    var tx := s.txs[c];
    var n := tx.phase.stamp;
    assert StampOk(s, c, tx);
    DecideExtends(s.init, s.log, n, o);
    forall k | After(s.init, s'.log, |s'.log|, k) != After(s.init, s.log, |s.log|, k)
      ensures HeldBy(s.table, c, k.bucket)
    {
      DecideAfterAny(s.init, s.log, n, o, k);
      WroteKey(tx.ws, k);
      var i :| 0 <= i < |tx.ws| && tx.ws[i].key == k;
      ItemHeld(s, c, i);
    }
    forall d, m: nat | d in s.txs && d != c && s.txs[d].phase == Validating(m) && m < |s.log|
      ensures s'.log[m].outcome == s.log[m].outcome
    {
      assert StampOk(s, d, s.txs[d]);
    }
  }

  lemma DecideAfterAny(init: map<Key, Value>, log: seq<Entry>, n: nat, o: Outcome, k: Key)
    requires n < |log| && log[n].outcome.Open?
    requires After(init, SetOutcome(log, n, o), |log|, k) != After(init, log, |log|, k)
    ensures k in log[n].wrote
  {
    if k !in log[n].wrote { DecideAfter(init, log, n, o, |log|, k); }
  }

  lemma ValidatedSettled(s: Sys, c: Caller)
    requires c in s.txs && TxOk(s, c) && s.txs[c].phase.Validating?
    requires forall i :: 0 <= i < |s.txs[c].rs| ==> s.txs[c].rs[i].st.RChecked?
    requires AllPass(s.txs[c])
    ensures var n := s.txs[c].phase.stamp;
            && s.log[n].wrote.Keys <= s.log[n].seen.Keys
            && forall k :: k in s.log[n].seen ==> Settled(s.init, s.log, n, k, s.log[n].seen[k])
  {
    var tx := s.txs[c];
    forall i | 0 <= i < |tx.rs| ensures Settled(s.init, s.log, tx.phase.stamp, tx.rs[i].key, tx.rs[i].Val()) {
      assert ReadOk(s, c, tx.phase, tx.rs[i]) && Passes(tx.rs[i]);
    }
    SeenSettled(s.init, s.log, tx.phase.stamp, tx);
  }

  lemma DecideOpen(s: Sys, s': Sys, c: Caller, n: nat, o: Outcome)
    requires OpenOk(s) && c in s.txs && c in s'.txs && s'.txs == s.txs[c := s'.txs[c]] && !o.Open?
    requires n < |s.log| && s'.log == SetOutcome(s.log, n, o)
    requires s.txs[c].phase.Validating? ==> s.txs[c].phase.stamp == n
    ensures OpenOk(s')
  {
    OpenSame(s, s', c);
  }

  lemma PassKeeps(s: Sys, c: Caller)
    requires Inv(s) && c in s.txs && s.txs[c].phase.Validating?
    requires forall i :: 0 <= i < |s.txs[c].rs| ==> s.txs[c].rs[i].st.RChecked?
    requires AllPass(s.txs[c])
    ensures Inv(DoFinishValidate(s, c, s.txs[c]))
  {
    var tx := s.txs[c];
    var s' := DoFinishValidate(s, c, tx);
    assert TxOk(s, c) && forall d :: d in s.txs ==> StampOk(s, d, s.txs[d]);
    AllLocked(s, c);
    hide StoreOk, OpenOk, LogOk, LocksMatch, Frame, TxOk, Settled, AllPass, AfterDecision;
    ValidatedSettled(s, c);
    DecideLog(s, tx.phase.stamp, Committed);
    DecideFrame(s, s', c, Committed);
    PassTxOk(s, s', c);
    PassStore(s, s', c);
    LocksSame(s, s', c);
    DecideOpen(s, s', c, tx.phase.stamp, Committed);
    Assemble(s, s', c);
  }

  lemma AllLocked(s: Sys, c: Caller)
    requires c in s.txs && TxOk(s, c) && s.txs[c].phase.Validating?
    ensures forall i :: 0 <= i < |s.txs[c].ws| ==> s.txs[c].ws[i].st.WLocked?
    ensures s.txs[c].phase.stamp < |s.log| && s.log[s.txs[c].phase.stamp].outcome.Open?
  {
    forall i | 0 <= i < |s.txs[c].ws| ensures s.txs[c].ws[i].st.WLocked? {
      assert WPhase(s.txs[c].phase, s.txs[c].ws[i].st);
    }
  }

  lemma DecidedCoherent(tx: Tx, f: nat)
    requires Coherent(tx, f) && tx.phase.Validating?
    ensures Coherent(tx.(phase := AfterDecision(tx, f)), f)
    ensures Coherent(Abandon(tx), f)
  {
  }

  lemma PassTxOk(s: Sys, s': Sys, c: Caller)
    requires LogOk(s) && c in s.txs && TxOk(s, c) && s.txs[c].phase.Validating?
    requires s' == WithTx(s, c, s.txs[c].(phase := AfterDecision(s.txs[c], |s.backups|)))
                   .(log := SetOutcome(s.log, s.txs[c].phase.stamp, Committed))
    ensures TxOk(s', c)
  {
    var tx := s.txs[c];
    forall i | 0 <= i < |tx.ws| ensures After(s'.init, s'.log, |s'.log|, tx.ws[i].key) == tx.ws[i].Target() {
      DecideHistory(s, c, tx.ws[i].key);
      WroteAt(tx.ws, i);
    }
    DecidedCoherent(tx, |s.backups|);
    hide Coherent, After, WroteBy, SeenBy;
  }

  lemma PassStore(s: Sys, s': Sys, c: Caller)
    requires StoreOk(s) && LogOk(s) && c in s.txs && TxOk(s, c) && s.txs[c].phase.Validating?
    requires s' == WithTx(s, c, s.txs[c].(phase := AfterDecision(s.txs[c], |s.backups|)))
                   .(log := SetOutcome(s.log, s.txs[c].phase.stamp, Committed))
    ensures StoreOk(s')
  {
    var tx := s.txs[c];
    forall k ensures k in WroteBy(tx.ws) ==> Writing(s'.txs[c], k)
      ensures k !in WroteBy(tx.ws) ==> After(s'.init, s'.log, |s'.log|, k) == After(s.init, s.log, |s.log|, k)
    {
      DecideHistory(s, c, k);
      if k in WroteBy(tx.ws) {
        WroteKey(tx.ws, k);
        var i :| 0 <= i < |tx.ws| && tx.ws[i].key == k;
        assert s'.txs[c].ws[i].st.WLocked? && s'.txs[c].ws[i].key == k;
      }
    }
    StoreSame(s, s', c);
  }

  /** A failed validation, or a decision on an entry that writes nothing: the history reads
      as before. */
  lemma InertDecision(s: Sys, s': Sys, c: Caller, n: nat, o: Outcome)
    requires StoreOk(s) && LocksMatch(s) && OpenOk(s) && LogOk(s) && c in s.txs && n < |s.log|
    requires (s.log[n].outcome.Open? && o.Dropped?) || (s.log[n].wrote == map[] && !o.Open?)
    requires c in s'.txs && s'.txs == s.txs[c := s'.txs[c]] && s'.txs[c].ws == s.txs[c].ws
    requires !Decided(s.txs[c].phase) && !Decided(s'.txs[c].phase)
    requires s'.init == s.init && s'.table == s.table && s'.log == SetOutcome(s.log, n, o)
    requires s.txs[c].phase.Validating? ==> s.txs[c].phase.stamp == n
    requires o.Committed? ==> forall k :: k in s.log[n].seen ==> Settled(s.init, s.log, n, k, s.log[n].seen[k])
    ensures StoreOk(s') && LocksMatch(s') && OpenOk(s') && LogOk(s')
  {
    DecideLog(s, n, o);
    DecideOpen(s, s', c, n, o);
    forall k ensures After(s.init, s'.log, |s'.log|, k) == After(s.init, s.log, |s.log|, k) {
      DecideAfter(s.init, s.log, n, o, |s.log|, k);
    }
    assert StoreOk(s') by { StoreSame(s, s', c); }
    LocksSame(s, s', c);
  }

  lemma FailKeeps(s: Sys, c: Caller)
    requires Inv(s) && c in s.txs && s.txs[c].phase.Validating?
    ensures Inv(WithTx(s, c, Abandon(s.txs[c])).(log := SetOutcome(s.log, s.txs[c].phase.stamp, Dropped)))
  {
    hide *;
    InvParts(s, c);
    AllLocked(s, c);
    AbandonFacts(s.txs[c]);
    FailAssembled(s, c, Abandon(s.txs[c]));
  }

  lemma FailAssembled(s: Sys, c: Caller, tx': Tx)
    requires Inv(s) && c in s.txs && s.txs[c].phase.Validating? && tx' == Abandon(s.txs[c])
    requires tx' == s.txs[c].(phase := tx'.phase) && !Decided(tx'.phase)
    requires TxOk(s, c) && (forall d :: d in s.txs ==> StampOk(s, d, s.txs[d]))
    requires StoreOk(s) && LocksMatch(s) && OpenOk(s) && LogOk(s)
    requires forall i :: 0 <= i < |s.txs[c].ws| ==> s.txs[c].ws[i].st.WLocked?
    requires s.txs[c].phase.stamp < |s.log| && s.log[s.txs[c].phase.stamp].outcome.Open?
    ensures Inv(WithTx(s, c, tx').(log := SetOutcome(s.log, s.txs[c].phase.stamp, Dropped)))
  {
    hide Inv, StoreOk, OpenOk, LogOk, LocksMatch, Frame, TxOk, Settled, Abandon, After, StampOk;
    var tx := s.txs[c];
    var s' := WithTx(s, c, tx').(log := SetOutcome(s.log, tx.phase.stamp, Dropped));
    DecideFrame(s, s', c, Dropped);
    InertDecision(s, s', c, tx.phase.stamp, Dropped);
    FailTxOk(s, s', c);
    Assemble(s, s', c);
  }

  lemma InvParts(s: Sys, c: Caller)
    requires Inv(s) && c in s.txs
    ensures TxOk(s, c) && (forall d :: d in s.txs ==> StampOk(s, d, s.txs[d]))
    ensures StoreOk(s) && LocksMatch(s) && OpenOk(s) && LogOk(s)
  {
  }

  lemma AbandonFacts(tx: Tx)
    ensures Abandon(tx) == tx.(phase := Abandon(tx).phase) && !Decided(Abandon(tx).phase)
  {
  }

  lemma FailTxOk(s: Sys, s': Sys, c: Caller)
    requires c in s.txs && TxOk(s, c) && s.txs[c].phase.Validating?
    requires s' == WithTx(s, c, Abandon(s.txs[c])).(log := SetOutcome(s.log, s.txs[c].phase.stamp, Dropped))
    ensures TxOk(s', c)
  {
    hide Coherent, After, WroteBy, SeenBy;
    DecidedCoherent(s.txs[c], |s.backups|);
  }

  lemma SingleReadKeeps(s: Sys, c: Caller)
    requires Inv(s) && c in s.txs && s.txs[c].phase.Active?
    requires |s.txs[c].rs| == 1 && |s.txs[c].ws| == 0 && s.txs[c].rs[0].st.RGot?
    ensures Inv(WithTx(s, c, s.txs[c].(phase := Done(true)))
                .(log := SetOutcome(s.log, s.txs[c].rs[0].st.probe, Committed)))
  {
    var tx := s.txs[c];
    var n := tx.rs[0].st.probe;
    var s' := WithTx(s, c, tx.(phase := Done(true))).(log := SetOutcome(s.log, n, Committed));
    assert TxOk(s, c) && ReadOk(s, c, tx.phase, tx.rs[0]);
    assert TxOk(s', c) by { SingleReadTxOk(s, s', c); }
    hide StoreOk, OpenOk, LogOk, LocksMatch, Frame;
    InertDecision(s, s', c, n, Committed);
    SingleReadFrame(s, s', c, n);
    hide TxOk;
    Assemble(s, s', c);
  }

  lemma SingleReadTxOk(s: Sys, s': Sys, c: Caller)
    requires c in s.txs && TxOk(s, c) && s.txs[c].phase.Active? && |s.txs[c].ws| == 0
    requires c in s'.txs && s'.txs[c] == s.txs[c].(phase := Done(true))
    requires |s'.log| == |s.log| && |s'.backups| == |s.backups|
    ensures TxOk(s', c)
  {
    hide After, WroteBy, SeenBy;
  }

  lemma SingleReadFrame(s: Sys, s': Sys, c: Caller, n: nat)
    requires (forall d :: d in s.txs ==> StampOk(s, d, s.txs[d])) && c in s.txs && c in s'.txs
    requires n < |s.log| && s.log[n].caller == c && s.log[n].wrote == map[]
    requires s' == WithTx(s, c, s'.txs[c]).(log := SetOutcome(s.log, n, Committed))
    ensures Frame(s, s', c)
  {
    DecideExtends(s.init, s.log, n, Committed);
    forall k ensures After(s.init, s'.log, |s'.log|, k) == After(s.init, s.log, |s.log|, k) {
      DecideAfter(s.init, s.log, n, Committed, |s.log|, k);
    }
    forall d, m: nat | d in s.txs && d != c && s.txs[d].phase == Validating(m) && m < |s.log|
      ensures s'.log[m].outcome == s.log[m].outcome
    {
      assert StampOk(s, d, s.txs[d]);
    }
  }
}
