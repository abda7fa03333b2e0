/** What the protocol guarantees over every run: serializability, lock discipline and
    agreement of the primary with the committed history. */
module Serializability {
  import opened Store
  import opened Protocol
  import opened History
  import opened Invariant
  import opened StepProofs
  import opened CommitProofs

  lemma ClientStepKeeps(s: Sys, step: Step)
    requires Inv(s) && Enabled(s, step)
    requires step.Start? || step.AddRead? || step.AddWrite? || step.SetObj? || step.DoRead?
    ensures Inv(Apply(s, step))
  {
    hide Inv;
    match step
    case Start(c) => StartKeeps(s, c);
    case AddRead(c, k) => AddReadKeeps(s, c, k);
    case AddWrite(c, k, mode, obj) => AddWriteKeeps(s, c, k, mode, obj);
    case SetObj(c, i, obj) => SetObjKeeps(s, c, i, obj);
    case DoRead(c) => DoReadKeeps(s, c);
  }

  lemma FinishStepKeeps(s: Sys, step: Step)
    requires Inv(s) && Enabled(s, step)
    requires step.FinishRead? || step.FinishLog? || step.FinishReplicas? || step.FinishPrimary?
    ensures Inv(Apply(s, step))
  {
    hide Inv;
    match step
    case FinishRead(c) => FinishReadKeeps(s, c);
    case FinishLog(c) => FinishLogKeeps(s, c);
    case FinishReplicas(c) => FinishReplicasKeeps(s, c);
    case FinishPrimary(c) => EndKeeps(s, c, true);
  }

  lemma ServerStepKeeps(s: Sys, step: Step)
    requires Inv(s) && Enabled(s, step)
    requires step.ServeRead? || step.ServeLock? || step.ServeValidate? || step.ServeReplica? ||
             step.ServePrimary? || step.ServeUnlock?
    ensures Inv(Apply(s, step))
  {
    hide Inv;
    match step
    case ServeRead(c, i, junk) => ServeReadKeeps(s, c, i, junk);
    case ServeLock(c, i) => ServeLockKeeps(s, c, i);
    case ServeValidate(c, i, junk) => ServeValidateKeeps(s, c, i, junk);
    case ServeReplica(c, i, r) => ServeReplicaKeeps(s, c, i, r);
    case ServePrimary(c, i) => ServePrimaryKeeps(s, c, i);
    case ServeUnlock(c, i) => ServeUnlockKeeps(s, c, i);
  }

  lemma DecisionStepKeeps(s: Sys, step: Step)
    requires Inv(s) && Enabled(s, step)
    requires step.Commit? || step.FinishValidate? || step.CommitSingleRead?
    ensures Inv(Apply(s, step))
  {
    hide Inv;
    match step
    case Commit(c) => if |s.txs[c].rs| > 0 { StampKeeps(s, c); } else { BlindKeeps(s, c); }
    case FinishValidate(c) => if AllPass(s.txs[c]) { PassKeeps(s, c); } else { FailKeeps(s, c); }
    case CommitSingleRead(c) => SingleReadKeeps(s, c);
  }

  lemma StepKeeps(s: Sys, step: Step)
    requires Inv(s)
    ensures Inv(Apply(s, step))
  {
    hide Inv;
    if Enabled(s, step) {
      if step.Start? || step.AddRead? || step.AddWrite? || step.SetObj? || step.DoRead? {
        ClientStepKeeps(s, step);
      } else if step.Commit? || step.FinishValidate? || step.CommitSingleRead? {
        DecisionStepKeeps(s, step);
      } else if step.ServeRead? || step.ServeLock? || step.ServeValidate? || step.ServeReplica? ||
                step.ServePrimary? || step.ServeUnlock? {
        ServerStepKeeps(s, step);
      } else if step.Abort? {
        AbortKeeps(s, step.c);
      } else if step.FinishUnlock? || step.AbortRdonly? {
        EndKeeps(s, step.c, false);
      } else {
        FinishStepKeeps(s, step);
      }
    }
  }

  lemma InitialInv(s: Sys)
    requires Initial(s)
    ensures Inv(s)
  {
    forall c, b | c in s.txs ensures Holds(s.table, c, b) == HeldItems(s.txs[c].ws, b) { }
  }

  lemma ApplyFixes(s: Sys, step: Step)
    ensures Apply(s, step).init == s.init && Apply(s, step).txs.Keys == s.txs.Keys
    ensures |Apply(s, step).backups| == |s.backups|
  {
    ApplyKeeps(s, step);
    ApplyCallers(s, step);
    hide Apply;
  }

  lemma ApplyKeeps(s: Sys, step: Step)
    ensures Apply(s, step).init == s.init && |Apply(s, step).backups| == |s.backups|
  {
    hide Serve, ServeBackup, SendReads, SendLocks, SendValidation, Abandon,
         AfterDecision, FirstBackupBatch, NextBackupBatch;
    hide AllPass, BatchAcked, Uses, SeenBy, WroteBy, ReadResult, Locked;
  }

  lemma ApplyCallers(s: Sys, step: Step)
    ensures Apply(s, step).txs.Keys == s.txs.Keys
  {
    hide Serve, ServeBackup, SendReads, SendLocks, SendValidation, Abandon,
         AfterDecision, FirstBackupBatch, NextBackupBatch;
    hide AllPass, BatchAcked, Uses, SeenBy, WroteBy, ReadResult, Locked;
    if Enabled(s, step) {
      assert Apply(s, step).txs == s.txs[step.c := Apply(s, step).txs[step.c]];
    }
  }

  lemma {:induction false} RunKeeps(s: Sys, steps: seq<Step>)
    requires Initial(s)
    ensures Inv(Execute(s, steps)) && Execute(s, steps).init == s.init && Execute(s, steps).txs.Keys == s.txs.Keys
  {
    if steps == [] {
      InitialInv(s);
    } else {
      RunKeeps(s, steps[..|steps| - 1]);
      StepKeeps(Execute(s, steps[..|steps| - 1]), steps[|steps| - 1]);
      ApplyFixes(Execute(s, steps[..|steps| - 1]), steps[|steps| - 1]);
    }
  }

  /** Committed transactions are serializable in stamp order: each saw, for every key it
      read or locked, exactly what the last earlier committed writer left. */
  lemma Serializable(s0: Sys, steps: seq<Step>, n: nat, k: Key)
    requires Initial(s0)
    requires n < |Execute(s0, steps).log|
    requires Execute(s0, steps).log[n].outcome.Committed? && k in Execute(s0, steps).log[n].seen
    ensures After(s0.table.data, Execute(s0, steps).log, n, k) == Execute(s0, steps).log[n].seen[k]
  {
    RunKeeps(s0, steps);
    assert EntryOk(s0.init, Execute(s0, steps).log, n);
  }

  /** The order respects real time: a transaction that began after another was decided
      comes after it. */
  lemma StrictOrder(s0: Sys, steps: seq<Step>, m: nat, n: nat)
    requires Initial(s0)
    requires m < |Execute(s0, steps).log| && n < |Execute(s0, steps).log|
    requires Execute(s0, steps).log[m].outcome.Committed?
    requires Execute(s0, steps).log[m].decided <= Execute(s0, steps).log[n].began
    ensures m < n
  {
    RunKeeps(s0, steps);
    var s := Execute(s0, steps);
    assert EntryOk(s.init, s.log, m) && EntryOk(s.init, s.log, n);
  }
}
