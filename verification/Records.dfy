/** A transaction that reports success has a committed entry in the history, holding what
    that very transaction read and wrote. */
module Records {
  import opened Store
  import opened Protocol
  import opened History
  import opened Invariant
  import opened Serializability

  ghost predicate Recorded(log: seq<Entry>, c: Caller, tx: Tx) {
    exists n :: 0 <= n < |log| && RecordAt(log, n, c, tx)
  }

  predicate RecordAt(log: seq<Entry>, n: nat, c: Caller, tx: Tx)
    requires n < |log|
  {
    && log[n].outcome.Committed? && log[n].caller == c && log[n].began == tx.began
    && log[n].seen == SeenBy(tx) && log[n].wrote == WroteBy(tx.ws)
  }

  predicate Succeeded(p: Phase) { Decided(p) || p == Done(true) }

  ghost predicate RecordOk(s: Sys, c: Caller, tx: Tx) {
    && (Undecided(tx.phase) ==> forall i :: 0 <= i < |tx.rs| && tx.rs[i].HasRead() ==>
          tx.rs[i].st.probe < |s.log| && s.log[tx.rs[i].st.probe].began == tx.began)
    && (tx.phase.Validating? ==> tx.phase.stamp < |s.log| && s.log[tx.phase.stamp].began == tx.began)
    && (Succeeded(tx.phase) ==> Recorded(s.log, c, tx))
  }

  ghost predicate RecordsOk(s: Sys) { forall c :: c in s.txs ==> RecordOk(s, c, s.txs[c]) }

  /** Entries never change but for the decision, and a commit is final. */
  ghost predicate Grows(log: seq<Entry>, log': seq<Entry>) {
    && |log| <= |log'|
    && forall n :: 0 <= n < |log| ==>
         && log'[n].caller == log[n].caller && log'[n].began == log[n].began
         && log'[n].seen == log[n].seen && log'[n].wrote == log[n].wrote
         && (log[n].outcome.Committed? ==> log'[n].outcome.Committed?)
  }

  lemma GrowsRecorded(log: seq<Entry>, log': seq<Entry>, c: Caller, tx: Tx)
    requires Grows(log, log') && Recorded(log, c, tx)
    ensures Recorded(log', c, tx)
  {
    var n :| 0 <= n < |log| && RecordAt(log, n, c, tx);
    assert RecordAt(log', n, c, tx);
  }

  lemma StepGrows(s: Sys, step: Step)
    requires Inv(s)
    ensures Grows(s.log, Apply(s, step).log)
  {
    hide Inv, Apply, Enabled;
    if Enabled(s, step) && step.FinishValidate? {
      ValidateGrows(s, step.c);
    } else if Enabled(s, step) && step.CommitSingleRead? {
      SingleReadGrows(s, step.c);
    } else {
      LogAppended(s, step);
    }
  }

  lemma SingleReadGrows(s: Sys, c: Caller)
    requires Enabled(s, CommitSingleRead(c))
    ensures Grows(s.log, Apply(s, CommitSingleRead(c)).log)
  {
    hide Grows;
    OutcomeGrows(s.log, s.txs[c].rs[0].st.probe, Committed);
  }

  lemma OutcomeGrows(log: seq<Entry>, n: nat, o: Outcome)
    requires o.Committed? || n >= |log| || !log[n].outcome.Committed?
    ensures Grows(log, SetOutcome(log, n, o))
  {
  }

  lemma ValidateGrows(s: Sys, c: Caller)
    requires Inv(s) && Enabled(s, FinishValidate(c))
    ensures Grows(s.log, Apply(s, FinishValidate(c)).log)
  {
    hide Abandon, AfterDecision, AllPass, Grows, LocksMatch, StoreOk, OpenOk, LogOk, ReadOk, ItemOk, DecidedOk;
    var n := s.txs[c].phase.stamp;
    assert TxOk(s, c);
    assert StampOk(s, c, s.txs[c]);
    OutcomeGrows(s.log, n, Committed);
    OutcomeGrows(s.log, n, Dropped);
  }

  lemma LogAppended(s: Sys, step: Step)
    requires !Enabled(s, step) || !(step.FinishValidate? || step.CommitSingleRead?)
    ensures s.log <= Apply(s, step).log
  {
    hide Serve, ServeBackup, SendReads, SendLocks, SendValidation, Abandon,
         AfterDecision, FirstBackupBatch, NextBackupBatch;
    hide AllPass, BatchAcked, Uses, SeenBy, WroteBy, ReadResult, Locked;
  }

  lemma LogKept(s: Sys, step: Step)
    requires !(step.ServeRead? || step.Commit? || step.FinishValidate? || step.CommitSingleRead?)
    ensures Apply(s, step).log == s.log
  {
    hide Serve, ServeBackup, SendReads, SendLocks, SendValidation, Abandon,
         AfterDecision, FirstBackupBatch, NextBackupBatch;
    hide AllPass, BatchAcked, Uses, SeenBy, WroteBy, ReadResult, Locked;
  }

  /** Records of everyone but the acting caller. */
  lemma OthersRecorded(s: Sys, step: Step, d: Caller)
    requires Inv(s) && RecordsOk(s) && d in s.txs && d != step.c
    ensures d in Apply(s, step).txs && RecordOk(Apply(s, step), d, Apply(s, step).txs[d])
  {
    hide Inv, Apply;
    StepGrows(s, step);
    OthersKept(s, step, d);
    if Succeeded(s.txs[d].phase) { GrowsRecorded(s.log, Apply(s, step).log, d, s.txs[d]); }
  }

  lemma OthersKept(s: Sys, step: Step, d: Caller)
    requires d in s.txs && d != step.c
    ensures d in Apply(s, step).txs && Apply(s, step).txs[d] == s.txs[d]
  {
    hide Serve, ServeBackup, SendReads, SendLocks, SendValidation, Abandon,
         AfterDecision, FirstBackupBatch, NextBackupBatch;
    hide AllPass, BatchAcked, Uses, SeenBy, WroteBy, ReadResult, Locked;
  }

  lemma {:induction false} SeenLockedSame(ws: seq<WItem>, ws': seq<WItem>)
    requires |ws| == |ws'|
    requires forall i :: 0 <= i < |ws| ==>
               ws[i].key == ws'[i].key && ws[i].Val() == ws'[i].Val() && ws[i].Target() == ws'[i].Target()
    ensures SeenLocked(ws) == SeenLocked(ws') && WroteBy(ws) == WroteBy(ws')
  {
    if ws != [] { SeenLockedSame(ws[..|ws| - 1], ws'[..|ws| - 1]); }
  }

  /** A later moment of a transaction already recorded. */
  lemma StillRecorded(log: seq<Entry>, c: Caller, tx: Tx, tx': Tx)
    requires Recorded(log, c, tx) && tx'.began == tx.began && tx'.rs == tx.rs && |tx'.ws| == |tx.ws|
    requires forall i :: 0 <= i < |tx.ws| ==>
               tx.ws[i].key == tx'.ws[i].key && tx.ws[i].Val() == tx'.ws[i].Val() &&
               tx.ws[i].Target() == tx'.ws[i].Target()
    ensures Recorded(log, c, tx')
  {
    SeenLockedSame(tx.ws, tx'.ws);
    var n :| 0 <= n < |log| && RecordAt(log, n, c, tx);
    assert RecordAt(log, n, c, tx');
  }

  lemma ServeReadRecord(s: Sys, c: Caller, i: nat, junk: nat)
    requires c in s.txs && i < |s.txs[c].rs| && s.txs[c].phase.Reading? && RecordOk(s, c, s.txs[c])
    ensures RecordOk(DoServeRead(s, c, s.txs[c], i, junk), c, DoServeRead(s, c, s.txs[c], i, junk).txs[c])
  {
  }

  lemma ServeValidateRecord(s: Sys, c: Caller, i: nat, junk: nat)
    requires c in s.txs && i < |s.txs[c].rs| && s.txs[c].phase.Validating? && s.txs[c].rs[i].st.RResent?
    requires RecordOk(s, c, s.txs[c])
    ensures RecordOk(DoServeValidate(s, c, s.txs[c], i, junk), c, DoServeValidate(s, c, s.txs[c], i, junk).txs[c])
  {
  }

  lemma ServeUpdateRecord(s: Sys, s': Sys, c: Caller, i: nat, w: WItem)
    requires c in s.txs && i < |s.txs[c].ws| && Decided(s.txs[c].phase) && RecordOk(s, c, s.txs[c])
    requires s'.log == s.log
    requires w.key == s.txs[c].ws[i].key && w.Val() == s.txs[c].ws[i].Val() && w.Target() == s.txs[c].ws[i].Target()
    ensures RecordOk(s', c, s.txs[c].(ws := s.txs[c].ws[i := w]))
  {
    StillRecorded(s.log, c, s.txs[c], s.txs[c].(ws := s.txs[c].ws[i := w]));
  }

  lemma ServerRecord(s: Sys, step: Step)
    requires Enabled(s, step) && RecordOk(s, step.c, s.txs[step.c])
    requires step.ServeRead? || step.ServeLock? || step.ServeValidate? || step.ServeReplica? ||
             step.ServePrimary? || step.ServeUnlock?
    ensures RecordOk(Apply(s, step), step.c, Apply(s, step).txs[step.c])
  {
    hide RecordOk, Serve, ServeBackup, ReadResult, BatchAcked, Uses;
    match step
    case ServeRead(c, i, junk) => ServeReadRecord(s, c, i, junk);
    case ServeLock(c, i) => SameRecord(s, Apply(s, step), c);
    case ServeValidate(c, i, junk) => ServeValidateRecord(s, c, i, junk);
    case ServeReplica(c, i, r) => ServeUpdateRecord(s, Apply(s, step), c, i, Apply(s, step).txs[c].ws[i]);
    case ServePrimary(c, i) => ServeUpdateRecord(s, Apply(s, step), c, i, Apply(s, step).txs[c].ws[i]);
    case ServeUnlock(c, i) => SameRecord(s, Apply(s, step), c);
  }

  /** A transaction that is not about to succeed, with the same reads. */
  lemma SameRecord(s: Sys, s': Sys, c: Caller)
    requires c in s.txs && c in s'.txs && s'.log == s.log && RecordOk(s, c, s.txs[c])
    requires s'.txs[c].phase == s.txs[c].phase && !Succeeded(s.txs[c].phase)
    requires s'.txs[c].rs == s.txs[c].rs && s'.txs[c].began == s.txs[c].began
    ensures RecordOk(s', c, s'.txs[c])
  {
  }

  lemma CommitRecord(s: Sys, c: Caller)
    requires c in s.txs && s.txs[c].phase.Active? && RecordOk(s, c, s.txs[c])
    requires forall i :: 0 <= i < |s.txs[c].rs| ==> s.txs[c].rs[i].st.RGot?
    ensures RecordOk(DoCommit(s, c, s.txs[c]), c, DoCommit(s, c, s.txs[c]).txs[c])
  {
    var s' := DoCommit(s, c, s.txs[c]);
    if |s.txs[c].rs| == 0 { assert RecordAt(s'.log, |s.log|, c, s'.txs[c]); }
  }

  lemma ValidateRecord(s: Sys, c: Caller)
    requires c in s.txs && s.txs[c].phase.Validating? && RecordOk(s, c, s.txs[c]) && StampOk(s, c, s.txs[c])
    requires forall i :: 0 <= i < |s.txs[c].rs| ==> s.txs[c].rs[i].st.RChecked?
    ensures RecordOk(DoFinishValidate(s, c, s.txs[c]), c, DoFinishValidate(s, c, s.txs[c]).txs[c])
  {
    var tx := s.txs[c];
    var s' := DoFinishValidate(s, c, tx);
    if AllPass(tx) { assert RecordAt(s'.log, tx.phase.stamp, c, s'.txs[c]); }
  }

  lemma SingleReadRecord(s: Sys, c: Caller)
    requires c in s.txs && TxOk(s, c) && s.txs[c].phase.Active? && RecordOk(s, c, s.txs[c])
    requires |s.txs[c].rs| == 1 && |s.txs[c].ws| == 0 && s.txs[c].rs[0].st.RGot?
    ensures Recorded(SetOutcome(s.log, s.txs[c].rs[0].st.probe, Committed), c, s.txs[c].(phase := Done(true)))
  {
    SingleSeen(s, c);
    assert ReadOk(s, c, s.txs[c].phase, s.txs[c].rs[0]);
    var n := s.txs[c].rs[0].st.probe;
    assert RecordAt(SetOutcome(s.log, n, Committed), n, c, s.txs[c].(phase := Done(true)));
  }

  lemma DecisionRecord(s: Sys, step: Step)
    requires Enabled(s, step) && TxOk(s, step.c) && RecordOk(s, step.c, s.txs[step.c])
    requires step.Commit? || step.FinishValidate? || step.CommitSingleRead?
    ensures RecordOk(Apply(s, step), step.c, Apply(s, step).txs[step.c])
  {
    match step
    case Commit(c) => CommitRecord(s, c);
    case FinishValidate(c) => ValidateRecord(s, c);
    case CommitSingleRead(c) => SingleReadRecord(s, c);
  }

  lemma SingleSeen(s: Sys, c: Caller)
    requires c in s.txs && TxOk(s, c) && s.txs[c].phase.Active?
    requires |s.txs[c].rs| == 1 && |s.txs[c].ws| == 0 && s.txs[c].rs[0].st.RGot?
    ensures s.log[s.txs[c].rs[0].st.probe].seen == SeenBy(s.txs[c])
    ensures s.log[s.txs[c].rs[0].st.probe].wrote == WroteBy(s.txs[c].ws) == map[]
  {
    var r := s.txs[c].rs[0];
    assert ReadOk(s, c, s.txs[c].phase, r);
    assert s.txs[c].rs[..0] == [];
    assert SeenRead(s.txs[c].rs) == map[][r.key := r.Val()];
  }

  lemma OtherRecord(s: Sys, step: Step)
    requires Enabled(s, step) && RecordOk(s, step.c, s.txs[step.c])
    requires !(step.ServeRead? || step.ServeLock? || step.ServeValidate? || step.ServeReplica? || step.ServePrimary? ||
               step.ServeUnlock? || step.Commit? || step.FinishValidate? || step.CommitSingleRead?)
    ensures RecordOk(Apply(s, step), step.c, Apply(s, step).txs[step.c])
  {
    hide Serve, ServeBackup, ReadResult, BatchAcked, Uses, SeenBy, WroteBy, AllPass, Recorded;
    var c := step.c;
    var tx := s.txs[c];
    LogKept(s, step);
    if Succeeded(Apply(s, step).txs[c].phase) {
      assert Succeeded(tx.phase);
      StillRecorded(s.log, c, tx, Apply(s, step).txs[c]);
    }
  }

  lemma StepRecords(s: Sys, step: Step)
    requires Inv(s) && RecordsOk(s)
    ensures RecordsOk(Apply(s, step))
  {
    hide RecordOk, LocksMatch, StoreOk, OpenOk, LogOk, TxOk;
    if Enabled(s, step) {
      forall d | d in Apply(s, step).txs ensures RecordOk(Apply(s, step), d, Apply(s, step).txs[d]) {
        ApplyFixes(s, step);
        if d != step.c { OthersRecorded(s, step, d); }
        else if step.Commit? || step.FinishValidate? || step.CommitSingleRead? { DecisionRecord(s, step); }
        else if step.ServeRead? || step.ServeLock? || step.ServeValidate? || step.ServeReplica? ||
                step.ServePrimary? || step.ServeUnlock? { ServerRecord(s, step); }
        else { OtherRecord(s, step); }
      }
    }
  }

  lemma {:induction false} RunRecords(s: Sys, steps: seq<Step>)
    requires Initial(s)
    ensures RecordsOk(Execute(s, steps))
  {
    if steps != [] {
      var before := steps[..|steps| - 1];
      RunRecords(s, before);
      RunKeeps(s, before);
      StepRecords(Execute(s, before), steps[|steps| - 1]);
    }
  }

  /** A transaction whose commit succeeded, or can no longer fail, has an entry made after
      it began that records all it read and wrote; by `Serializable`, that entry saw what
      the committed writers before it left. */
  lemma CommittedIsRecorded(s0: Sys, steps: seq<Step>, c: Caller)
    requires Initial(s0) && c in Execute(s0, steps).txs
    requires Succeeded(Execute(s0, steps).txs[c].phase)
    ensures var s := Execute(s0, steps);
            exists n :: 0 <= n < |s.log| && RecordAt(s.log, n, c, s.txs[c]) &&
                        forall k :: k in SeenBy(s.txs[c]) ==> After(s0.table.data, s.log, n, k) == SeenBy(s.txs[c])[k]
  {
    RunRecords(s0, steps);
    var s := Execute(s0, steps);
    assert RecordOk(s, c, s.txs[c]);
    var n :| 0 <= n < |s.log| && RecordAt(s.log, n, c, s.txs[c]);
    forall k | k in SeenBy(s.txs[c]) ensures After(s0.table.data, s.log, n, k) == SeenBy(s.txs[c])[k] {
      Serializable(s0, steps, n, k);
    }
  }

  /** Validation re-reads the objects into the application's buffers. When it passes, the
      buffers hold again exactly the values of the execute phase. */
  lemma ValidationRereads(s0: Sys, steps: seq<Step>, c: Caller, i: nat)
    requires Initial(s0) && c in Execute(s0, steps).txs
    requires Execute(s0, steps).txs[c].phase.Validating? && i < |Execute(s0, steps).txs[c].rs|
    requires Execute(s0, steps).txs[c].rs[i].st.RChecked? && Passes(Execute(s0, steps).txs[c].rs[i])
    requires Execute(s0, steps).txs[c].rs[i].st.val.Some?
    ensures var r := Execute(s0, steps).txs[c].rs[i];
            r.st.resp.RdSuccess? && r.st.resp.value == r.st.val.value
  {
    RunKeeps(s0, steps);
    var s := Execute(s0, steps);
    assert TxOk(s, c);
    assert ReadOk(s, c, s.txs[c].phase, s.txs[c].rs[i]);
  }
}
