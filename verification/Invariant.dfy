/** The inductive invariant of the transaction protocol. */
module Invariant {
  import opened Store
  import opened Protocol
  import opened History

  // ---- Lock counting ----

  function Bit(w: WItem, b: nat): nat { if w.st.WLocked? && w.key.bucket == b then 1 else 0 }

  /** How many unreleased locked items a write set has in bucket b. */
  function HeldItems(ws: seq<WItem>, b: nat): nat {
    if ws == [] then 0 else HeldItems(ws[..|ws| - 1], b) + Bit(ws[|ws| - 1], b)
  }

  lemma {:induction false} HeldItemsSet(ws: seq<WItem>, i: nat, w: WItem, b: nat)
    requires i < |ws|
    ensures HeldItems(ws[i := w], b) == HeldItems(ws, b) - Bit(ws[i], b) + Bit(w, b)
  {
    var ws' := ws[i := w];
    var n := |ws| - 1;
    if i < n {
      assert ws'[..n] == ws[..n][i := w];
      HeldItemsSet(ws[..n], i, w, b);
    } else {
      assert ws'[..n] == ws[..n];
    }
  }

  lemma {:induction false} HeldItemsSame(ws: seq<WItem>, ws': seq<WItem>, b: nat)
    requires |ws| == |ws'|
    requires forall i :: 0 <= i < |ws| ==> Bit(ws[i], b) == Bit(ws'[i], b)
    ensures HeldItems(ws, b) == HeldItems(ws', b)
  {
    if ws != [] { HeldItemsSame(ws[..|ws| - 1], ws'[..|ws| - 1], b); }
  }

  lemma {:induction false} HeldItemsPositive(ws: seq<WItem>, i: nat)
    requires i < |ws| && ws[i].st.WLocked?
    ensures HeldItems(ws, ws[i].key.bucket) > 0
  {
    if i < |ws| - 1 { HeldItemsPositive(ws[..|ws| - 1], i); }
  }

  lemma {:induction false} HeldItemsBound(ws: seq<WItem>, b: nat)
    ensures HeldItems(ws, b) <= |ws|
    ensures (forall i :: 0 <= i < |ws| ==> !ws[i].st.WLocked?) ==> HeldItems(ws, b) == 0
  {
    if ws != [] { HeldItemsBound(ws[..|ws| - 1], b); }
  }

  // ---- Shape of one transaction ----

  ghost predicate Distinct(tx: Tx) {
    && (forall i, j :: 0 <= i < j < |tx.rs| ==> tx.rs[i].key != tx.rs[j].key)
    && (forall i, j :: 0 <= i < j < |tx.ws| ==> tx.ws[i].key != tx.ws[j].key)
    && (forall i, j :: 0 <= i < |tx.rs| && 0 <= j < |tx.ws| ==> tx.rs[i].key != tx.ws[j].key)
  }

  predicate RPhase(p: Phase, st: RState) {
    match p
    case Active => st.RNew? || st.RGot?
    case Reading => st.RSent? || st.RGot? || st.RLocked?
    case MustAbort => st.RGot? || st.RLocked?
    case Validating(_) => st.RResent? || st.RChecked?
    case _ => true
  }

  predicate WPhase(p: Phase, st: WState) {
    match p
    case Done(_) => !st.WLocked?
    case Active => st.WNew? || st.WLocked?
    case Reading => st.WSent? || st.WLocked? || st.WFailed?
    case MustAbort => st.WLocked? || st.WFailed?
    case Validating(_) => st.WLocked?
    case Logging => st.WLocked?
    case UpdatingBackups(_, _) => st.WLocked?
    case UpdatingPrimary => st.WLocked? || st.WReleased?
    case Unlocking => st.WLocked? || st.WFailed? || st.WReleased?
  }

  /** Which backups have already applied an item's update. */
  ghost predicate AcksOk(p: Phase, acks: set<nat>, f: nat) {
    match p
    case UpdatingBackups(lo, hi) => (forall r :: 1 <= r < lo ==> r in acks) && (forall r :: r in acks ==> 1 <= r < hi)
    case UpdatingPrimary => forall r :: r in acks <==> 1 <= r <= f
    case Done(_) => true
    case _ => acks == {}
  }

  ghost predicate Coherent(tx: Tx, f: nat) {
    && Distinct(tx)
    && |tx.rs| + |tx.ws| <= MAX_MSG_CORO
    && (forall i :: 0 <= i < |tx.rs| ==> RPhase(tx.phase, tx.rs[i].st))
    && (forall i :: 0 <= i < |tx.ws| ==> WPhase(tx.phase, tx.ws[i].st))
    && (forall i :: 0 <= i < |tx.ws| ==> AcksOk(tx.phase, tx.ws[i].acks, f))
    && (tx.phase.UpdatingBackups? ==> 1 <= tx.phase.lo <= tx.phase.hi <= f + 1)
  }

  lemma CoherentSetRead(tx: Tx, f: nat, i: nat, r: RItem)
    requires Coherent(tx, f) && i < |tx.rs| && r.key == tx.rs[i].key && RPhase(tx.phase, r.st)
    ensures Coherent(tx.(rs := tx.rs[i := r]), f)
  {
    var rs := tx.rs[i := r];
    assert forall j :: 0 <= j < |rs| ==> rs[j].key == tx.rs[j].key;
  }

  lemma CoherentSetWrite(tx: Tx, f: nat, i: nat, w: WItem)
    requires Coherent(tx, f) && i < |tx.ws| && w.key == tx.ws[i].key
    requires WPhase(tx.phase, w.st) && AcksOk(tx.phase, w.acks, f)
    ensures Coherent(tx.(ws := tx.ws[i := w]), f)
  {
    var ws := tx.ws[i := w];
    assert forall j :: 0 <= j < |ws| ==> ws[j].key == tx.ws[j].key;
  }

  // ---- What a transaction knows about the store and the history ----

  /** A locked item knows the stored value. */
  predicate ItemOk(t: Table, w: WItem) {
    w.st.WLocked? ==> Find(t.data, w.key) == w.st.val && (w.mode.Insert? <==> w.st.val.None?)
  }

  predicate Undecided(p: Phase) { p.Active? || p.Reading? || p.MustAbort? || p.Validating? }

  predicate Decided(p: Phase) { p.Logging? || p.UpdatingBackups? || p.UpdatingPrimary? }

  /** The bucket still carries the version that r saw, and no one else has it locked. */
  predicate Unmoved(t: Table, c: Caller, r: RItem)
    requires r.HasRead()
  {
    Version(t, r.key.bucket) == r.st.ver && !HeldByOther(t, c, r.key.bucket)
  }

  ghost predicate ProbeOk(s: Sys, c: Caller, r: RItem)
    requires r.HasRead()
  {
    && r.st.probe < |s.log|
    && s.log[r.st.probe].caller == c
    && s.log[r.st.probe].wrote == map[]
    && s.log[r.st.probe].seen == map[r.key := r.st.val]
    && Settled(s.init, s.log, r.st.probe, r.key, r.st.val)
  }

  /** A completed read: a version from the future can only have been read under the
      caller's own lock; an unmoved bucket still holds the value read. */
  ghost predicate ReadOk(s: Sys, c: Caller, p: Phase, r: RItem) {
    && (r.HasRead() ==> ProbeOk(s, c, r))
    && (r.st.RGot? || r.st.RResent? ==>
          && (r.st.ver <= Version(s.table, r.key.bucket) || HeldBy(s.table, c, r.key.bucket))
          && (Unmoved(s.table, c, r) ==> Find(s.table.data, r.key) == r.st.val))
    && (p.Validating? && r.st.RResent? ==>
          && (Unmoved(s.table, c, r) ==> Settled(s.init, s.log, p.stamp, r.key, r.st.val))
          && (HeldBy(s.table, c, r.key.bucket) ==>
                Settled(s.init, s.log, p.stamp, r.key, Find(s.table.data, r.key))))
    && (p.Validating? && r.st.RChecked? && Passes(r) ==>
          && Settled(s.init, s.log, p.stamp, r.key, r.st.val)
          && (r.st.val.Some? ==> r.st.resp.value == r.st.val.value))
  }

  ghost predicate StampOk(s: Sys, c: Caller, tx: Tx) {
    tx.phase.Validating? ==>
      && tx.phase.stamp < |s.log|
      && s.log[tx.phase.stamp].caller == c
      && s.log[tx.phase.stamp].outcome.Open?
      && s.log[tx.phase.stamp].seen == SeenBy(tx)
      && s.log[tx.phase.stamp].wrote == WroteBy(tx.ws)
      && forall i :: 0 <= i < |tx.ws| ==>
           Settled(s.init, s.log, tx.phase.stamp, tx.ws[i].key, tx.ws[i].Val())
  }

  /** From the decision on, the history already holds what the item will write. */
  ghost predicate DecidedOk(s: Sys, tx: Tx) {
    Decided(tx.phase) ==>
      forall i :: 0 <= i < |tx.ws| && tx.ws[i].st.WLocked? ==>
        After(s.init, s.log, |s.log|, tx.ws[i].key) == tx.ws[i].Target()
  }

  ghost predicate TxOk(s: Sys, c: Caller)
    requires c in s.txs
  {
    var tx := s.txs[c];
    && Coherent(tx, |s.backups|)
    && tx.began <= |s.log|
    && (forall i :: 0 <= i < |tx.ws| ==> ItemOk(s.table, tx.ws[i]))
    && (Undecided(tx.phase) ==> forall i :: 0 <= i < |tx.rs| ==> ReadOk(s, c, tx.phase, tx.rs[i]))
    && StampOk(s, c, tx)
    && DecidedOk(s, tx)
  }

  ghost predicate LocksMatch(s: Sys) {
    && ValidTable(s.table)
    && (forall c, b :: c in s.txs ==> Holds(s.table, c, b) == HeldItems(s.txs[c].ws, b))
    && (forall b: nat :: LockOf(s.table, b).holder.Some? ==> LockOf(s.table, b).holder.value in s.txs)
  }

  /** A committed write of k that has not reached the primary yet. */
  predicate Writing(tx: Tx, k: Key) {
    Decided(tx.phase) && exists i :: 0 <= i < |tx.ws| && tx.ws[i].st.WLocked? && tx.ws[i].key == k
  }

  /** The history and the primary agree, up to writes in flight. */
  ghost predicate StoreOk(s: Sys) {
    forall k :: After(s.init, s.log, |s.log|, k) == Find(s.table.data, k) ||
                exists c :: c in s.txs && Writing(s.txs[c], k)
  }

  /** An undecided writer is a transaction in validation. */
  ghost predicate OpenOk(s: Sys) {
    forall n :: 0 <= n < |s.log| && s.log[n].outcome.Open? && s.log[n].wrote != map[] ==>
      s.log[n].caller in s.txs && s.txs[s.log[n].caller].phase == Validating(n)
  }

  ghost predicate EntryOk(init: map<Key, Value>, log: seq<Entry>, n: nat)
    requires n < |log|
  {
    && log[n].began <= n
    && (log[n].outcome.Committed? ==>
          && n < log[n].decided <= |log|
          && log[n].wrote.Keys <= log[n].seen.Keys
          && forall k :: k in log[n].seen ==> Settled(init, log, n, k, log[n].seen[k]))
  }

  ghost predicate LogOk(s: Sys) { forall n :: 0 <= n < |s.log| ==> EntryOk(s.init, s.log, n) }

  ghost predicate Inv(s: Sys) {
    && LocksMatch(s)
    && (forall c :: c in s.txs ==> TxOk(s, c))
    && StoreOk(s)
    && OpenOk(s)
    && LogOk(s)
  }

  // ---- What one caller's step may change for everyone else ----

  ghost predicate TableMoves(t: Table, t': Table, c: Caller) {
    forall b: nat ::
      && Version(t, b) <= Version(t', b)
      && (HeldByOther(t, c, b) ==> LockOf(t', b) == LockOf(t, b))
      && (!HeldByOther(t, c, b) ==> !HeldByOther(t', c, b))
      && (Version(t, b) == Version(t', b) && HeldBy(t, c, b) ==> HeldBy(t', c, b))
  }

  ghost predicate Frame(s: Sys, s': Sys, c: Caller) {
    && c in s.txs
    && s'.init == s.init
    && |s'.backups| == |s.backups|
    && s'.txs.Keys == s.txs.Keys
    && (forall d :: d in s.txs && d != c ==> s'.txs[d] == s.txs[d])
    && Extends(s.init, s.log, s'.log)
    && TableMoves(s.table, s'.table, c)
    && (forall k :: Find(s'.table.data, k) != Find(s.table.data, k) ==> HeldBy(s.table, c, k.bucket))
    && (forall k :: After(s.init, s'.log, |s'.log|, k) != After(s.init, s.log, |s.log|, k) ==>
          HeldBy(s.table, c, k.bucket))
    && (forall d, n: nat :: d in s.txs && d != c && s.txs[d].phase == Validating(n) && n < |s.log| ==>
          s'.log[n].outcome == s.log[n].outcome)
  }

  lemma ItemHeld(s: Sys, c: Caller, i: nat)
    requires LocksMatch(s) && c in s.txs && i < |s.txs[c].ws| && s.txs[c].ws[i].st.WLocked?
    ensures HeldBy(s.table, c, s.txs[c].ws[i].key.bucket)
  {
    HeldItemsPositive(s.txs[c].ws, i);
    assert Holds(s.table, c, s.txs[c].ws[i].key.bucket) > 0;
  }

  lemma FrameRead(s: Sys, s': Sys, c: Caller, d: Caller, p: Phase, r: RItem)
    requires Frame(s, s', c) && d != c
    requires ReadOk(s, d, p, r)
    ensures ReadOk(s', d, p, r)
  {
    var b := r.key.bucket;
    if r.st.RGot? || r.st.RResent? {
      if HeldBy(s.table, d, b) || HeldBy(s'.table, d, b) {
        assert LockOf(s'.table, b) == LockOf(s.table, b);
      }
      if Unmoved(s'.table, d, r) {
        assert Unmoved(s.table, d, r);
      }
    }
  }

  lemma FrameTx(s: Sys, s': Sys, c: Caller, d: Caller)
    requires Frame(s, s', c) && d in s.txs && d != c
    requires LocksMatch(s) && TxOk(s, d)
    ensures TxOk(s', d)
  {
    var tx := s.txs[d];
    forall i | 0 <= i < |tx.ws| && tx.ws[i].st.WLocked?
      ensures !HeldBy(s.table, c, tx.ws[i].key.bucket)
    {
      ItemHeld(s, d, i);
    }
    if Undecided(tx.phase) {
      forall i | 0 <= i < |tx.rs| ensures ReadOk(s', d, tx.phase, tx.rs[i]) {
        FrameRead(s, s', c, d, tx.phase, tx.rs[i]);
      }
    }
  }
}
