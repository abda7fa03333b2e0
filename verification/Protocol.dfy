/** The transaction protocol as a machine whose steps are: one server executing one
    request, or one coordinator running from one yield to the next. Requests of one
    batch are executed one at a time, in any order, between requests of others. */
module Protocol {
  import opened Store

  const MAX_MSG_CORO: nat := 16

  datatype Mode = Update | Insert | Delete

  /** Read-set item. `RGot` is a completed execute-phase read, `RResent` one whose
      validation read is under way, `RChecked` one whose validation response is in.
      `probe` names the history entry made at the moment of the execute-phase read. */
  datatype RState =
    | RNew
    | RSent
    | RGot(val: Option<Value>, ver: nat, probe: nat)
    | RLocked
    | RResent(val: Option<Value>, ver: nat, probe: nat)
    | RChecked(val: Option<Value>, ver: nat, probe: nat, resp: Response)

  datatype RItem = RItem(key: Key, st: RState) {
    predicate HasRead() { st.RGot? || st.RResent? || st.RChecked? }
    function Val(): Option<Value> { if HasRead() then st.val else None }
  }

  /** Write-set item. `WLocked` holds one lock on the key's bucket and knows the value
      found under it; `WReleased` has given that hold back. */
  datatype WState =
    | WNew
    | WSent
    | WLocked(val: Option<Value>)
    | WFailed
    | WReleased(val: Option<Value>)

  datatype WItem = WItem(key: Key, mode: Mode, st: WState, obj: Value, acks: set<nat>) {
    function Val(): Option<Value> { if st.WLocked? || st.WReleased? then st.val else None }
    /** What the key holds after commit. */
    function Target(): Option<Value> { if mode.Delete? then None else Some(obj) }
    /** The commit-time request, to the primary and to each backup. */
    function UpdateRequest(): Request { if mode.Delete? then Del(key) else Put(key, obj) }
    function LockRequest(): Request { if mode.Insert? then LockForIns(key) else GetForUpd(key) }
  }

  datatype Phase =
    | Done(committed: bool)
    | Active
    | Reading
    | MustAbort
    | Validating(stamp: nat)
    | Logging
    | UpdatingBackups(lo: nat, hi: nat)
    | UpdatingPrimary
    | Unlocking

  datatype Tx = Tx(phase: Phase, rs: seq<RItem>, ws: seq<WItem>, began: nat)

  datatype Outcome = Open | Committed | Dropped

  /** One history entry: what a transaction read and would write. Entries stand in the
      order of the moments they were made: just before the first validation read, or at
      the execute-phase read itself for the entries that a single-key commit uses. */
  datatype Entry = Entry(caller: Caller, seen: map<Key, Option<Value>>, wrote: map<Key, Option<Value>>,
                         outcome: Outcome, began: nat, decided: nat)

  /** `init` is the populated table, kept for reference; `backups[r]` is replica r + 1;
      `fatal` records that some server assertion failed. */
  datatype Sys = Sys(init: map<Key, Value>, table: Table, backups: seq<map<Key, Value>>,
                     txs: map<Caller, Tx>, log: seq<Entry>, fatal: bool)

  datatype Step =
    | Start(c: Caller)
    | AddRead(c: Caller, key: Key)
    | AddWrite(c: Caller, key: Key, mode: Mode, obj: Value)
    | SetObj(c: Caller, i: nat, obj: Value)
    | DoRead(c: Caller)
    | ServeRead(c: Caller, i: nat, junk: nat)
    | ServeLock(c: Caller, i: nat)
    | FinishRead(c: Caller)
    | Commit(c: Caller)
    | ServeValidate(c: Caller, i: nat, junk: nat)
    | FinishValidate(c: Caller)
    | FinishLog(c: Caller)
    | ServeReplica(c: Caller, i: nat, r: nat)
    | FinishReplicas(c: Caller)
    | ServePrimary(c: Caller, i: nat)
    | FinishPrimary(c: Caller)
    | Abort(c: Caller)
    | ServeUnlock(c: Caller, i: nat)
    | FinishUnlock(c: Caller)
    | CommitSingleRead(c: Caller)
    | AbortRdonly(c: Caller)

  predicate Uses(tx: Tx, k: Key) {
    (exists i :: 0 <= i < |tx.rs| && tx.rs[i].key == k) || (exists i :: 0 <= i < |tx.ws| && tx.ws[i].key == k)
  }

  /** What a transaction would write, by key. */
  function WroteBy(ws: seq<WItem>): map<Key, Option<Value>> {
    if ws == [] then map[]
    else WroteBy(ws[..|ws| - 1])[ws[|ws| - 1].key := ws[|ws| - 1].Target()]
  }

  /** What it found under its write locks, and what its read set saw. */
  function SeenLocked(ws: seq<WItem>): map<Key, Option<Value>> {
    if ws == [] then map[]
    else SeenLocked(ws[..|ws| - 1])[ws[|ws| - 1].key := ws[|ws| - 1].Val()]
  }

  function SeenRead(rs: seq<RItem>): map<Key, Option<Value>> {
    if rs == [] then map[]
    else SeenRead(rs[..|rs| - 1])[rs[|rs| - 1].key := rs[|rs| - 1].Val()]
  }

  function SeenBy(tx: Tx): map<Key, Option<Value>> { SeenRead(tx.rs) + SeenLocked(tx.ws) }

  /** The check of one validation response against what the execute phase saw. */
  predicate Passes(r: RItem)
    requires r.st.RChecked?
  {
    match r.st.val
    case Some(_) => r.st.resp.RdSuccess? && r.st.resp.version == r.st.ver
    case None => r.st.resp.RdNotFound? && r.st.resp.version == r.st.ver
  }

  function SendReads(rs: seq<RItem>): (r: seq<RItem>)
    ensures |r| == |rs|
  {
    seq(|rs|, i requires 0 <= i < |rs| => if rs[i].st.RNew? then rs[i].(st := RSent) else rs[i])
  }

  function SendLocks(ws: seq<WItem>): (w: seq<WItem>)
    ensures |w| == |ws|
  {
    seq(|ws|, i requires 0 <= i < |ws| => if ws[i].st.WNew? then ws[i].(st := WSent) else ws[i])
  }

  function SendValidation(rs: seq<RItem>): (r: seq<RItem>)
    ensures |r| == |rs|
  {
    seq(|rs|, i requires 0 <= i < |rs| =>
      if rs[i].st.RGot? then rs[i].(st := RResent(rs[i].st.val, rs[i].st.ver, rs[i].st.probe)) else rs[i])
  }

  /** Where commit goes once it cannot fail: the first backup batch is all backups when
      the requests fit one batch and one backup otherwise. */
  function FirstBackupBatch(tx: Tx, f: nat): Phase {
    if |tx.ws| * f <= MAX_MSG_CORO then UpdatingBackups(1, f + 1) else UpdatingBackups(1, 2)
  }

  function NextBackupBatch(tx: Tx, f: nat): Phase
    requires tx.phase.UpdatingBackups?
  {
    if tx.phase.hi <= f then UpdatingBackups(tx.phase.hi, tx.phase.hi + 1) else UpdatingPrimary
  }

  function AfterDecision(tx: Tx, f: nat): Phase {
    if |tx.ws| == 0 then Done(true) else if f > 0 then Logging else UpdatingPrimary
  }

  predicate BatchAcked(tx: Tx, lo: nat, hi: nat) {
    forall i, r :: 0 <= i < |tx.ws| && lo <= r < hi ==> r in tx.ws[i].acks
  }

  predicate Enabled(s: Sys, step: Step) {
    && step.c in s.txs
    && var tx := s.txs[step.c];
       match step
       case Start(_) => tx.phase.Done?
       case AddRead(_, k) => tx.phase.Active? && |tx.rs| + |tx.ws| < MAX_MSG_CORO && !Uses(tx, k)
       case AddWrite(_, k, _, _) => tx.phase.Active? && |tx.rs| + |tx.ws| < MAX_MSG_CORO && !Uses(tx, k)
       case SetObj(_, i, _) => tx.phase.Active? && i < |tx.ws|
       case DoRead(_) => tx.phase.Active?
       case ServeRead(_, i, _) => tx.phase.Reading? && i < |tx.rs| && tx.rs[i].st.RSent?
       case ServeLock(_, i) => tx.phase.Reading? && i < |tx.ws| && tx.ws[i].st.WSent?
       case FinishRead(_) =>
         && tx.phase.Reading?
         && (forall i :: 0 <= i < |tx.rs| ==> !tx.rs[i].st.RSent?)
         && (forall i :: 0 <= i < |tx.ws| ==> !tx.ws[i].st.WSent?)
       case Commit(_) =>
         && tx.phase.Active?
         && (forall i :: 0 <= i < |tx.rs| ==> tx.rs[i].st.RGot?)
         && (forall i :: 0 <= i < |tx.ws| ==> tx.ws[i].st.WLocked?)
       case ServeValidate(_, i, _) => tx.phase.Validating? && i < |tx.rs| && tx.rs[i].st.RResent?
       case FinishValidate(_) => tx.phase.Validating? && (forall i :: 0 <= i < |tx.rs| ==> tx.rs[i].st.RChecked?)
       case FinishLog(_) => tx.phase.Logging?
       case ServeReplica(_, i, r) =>
         && tx.phase.UpdatingBackups? && i < |tx.ws|
         && tx.phase.lo <= r < tx.phase.hi && r !in tx.ws[i].acks && 1 <= r <= |s.backups|
       case FinishReplicas(_) => tx.phase.UpdatingBackups? && BatchAcked(tx, tx.phase.lo, tx.phase.hi)
       case ServePrimary(_, i) => tx.phase.UpdatingPrimary? && i < |tx.ws| && tx.ws[i].st.WLocked?
       case FinishPrimary(_) => tx.phase.UpdatingPrimary? && (forall i :: 0 <= i < |tx.ws| ==> !tx.ws[i].st.WLocked?)
       case Abort(_) =>
         && (tx.phase.Active? || tx.phase.MustAbort?)
         && (forall i :: 0 <= i < |tx.ws| ==> !tx.ws[i].st.WNew?)
       case ServeUnlock(_, i) => tx.phase.Unlocking? && i < |tx.ws| && tx.ws[i].st.WLocked?
       case FinishUnlock(_) => tx.phase.Unlocking? && (forall i :: 0 <= i < |tx.ws| ==> !tx.ws[i].st.WLocked?)
       case CommitSingleRead(_) => tx.phase.Active? && |tx.rs| == 1 && |tx.ws| == 0 && tx.rs[0].st.RGot?
       case AbortRdonly(_) => (tx.phase.Active? || tx.phase.MustAbort?) && |tx.ws| == 0
  }

  function WithTx(s: Sys, c: Caller, tx: Tx): Sys { s.(txs := s.txs[c := tx]) }

  function ReadResult(resp: Response, probe: nat): RState {
    match resp
    case RdSuccess(v, ver) => RGot(Some(v), ver, probe)
    case RdNotFound(ver) => RGot(None, ver, probe)
    case _ => RLocked
  }

  function LockResult(resp: Response): WState {
    match resp
    case UpdSuccess(v) => WLocked(Some(v))
    case InsSuccess => WLocked(None)
    case _ => WFailed
  }

  /** A write-set item after its lock request: a fetched object overwrites the buffer. */
  function Locked(w: WItem, resp: Response): WItem {
    w.(st := LockResult(resp), obj := if resp.UpdSuccess? then resp.value else w.obj)
  }

  function Abandon(tx: Tx): Tx {
    if exists i :: 0 <= i < |tx.ws| && tx.ws[i].st.WLocked?
    then tx.(phase := Unlocking)
    else tx.(phase := Done(false))
  }

  predicate AllPass(tx: Tx)
    requires forall i :: 0 <= i < |tx.rs| ==> tx.rs[i].st.RChecked?
  {
    forall i :: 0 <= i < |tx.rs| ==> Passes(tx.rs[i])
  }

  function DoServeRead(s: Sys, c: Caller, tx: Tx, i: nat, junk: nat): Sys
    requires i < |tx.rs|
  {
    var k := tx.rs[i].key;
    var resp := Serve(s.table, c, GetRdonly(k), junk).1;
    var st := ReadResult(resp, |s.log|);
    var s1 := WithTx(s, c, tx.(rs := tx.rs[i := RItem(k, st)]));
    if st.RGot?
    then s1.(log := s.log + [Entry(c, map[k := st.val], map[], Open, tx.began, 0)])
    else s1
  }

  function DoServeLock(s: Sys, c: Caller, tx: Tx, i: nat): Sys
    requires i < |tx.ws|
  {
    var (t, resp) := Serve(s.table, c, tx.ws[i].LockRequest(), 0);
    WithTx(s, c, tx.(ws := tx.ws[i := Locked(tx.ws[i], resp)])).(table := t)
  }

  function DoFinishRead(s: Sys, c: Caller, tx: Tx): Sys {
    var failed := (exists i :: 0 <= i < |tx.rs| && tx.rs[i].st.RLocked?) ||
                  (exists i :: 0 <= i < |tx.ws| && tx.ws[i].st.WFailed?);
    WithTx(s, c, tx.(phase := if failed then MustAbort else Active))
  }

  function DoCommit(s: Sys, c: Caller, tx: Tx): Sys
  {
    var entry := Entry(c, SeenBy(tx), WroteBy(tx.ws), Open, tx.began, 0);
    if |tx.rs| > 0
    then WithTx(s, c, tx.(phase := Validating(|s.log|), rs := SendValidation(tx.rs))).(log := s.log + [entry])
    else WithTx(s, c, tx.(phase := AfterDecision(tx, |s.backups|)))
         .(log := s.log + [entry.(outcome := Committed, decided := |s.log| + 1)])
  }

  function DoServeValidate(s: Sys, c: Caller, tx: Tx, i: nat, junk: nat): Sys
    requires i < |tx.rs| && tx.rs[i].st.RResent?
  {
    var r := tx.rs[i];
    var resp := Serve(s.table, c, GetRdonly(r.key), junk).1;
    WithTx(s, c, tx.(rs := tx.rs[i := r.(st := RChecked(r.st.val, r.st.ver, r.st.probe, resp))]))
  }

  function SetOutcome(log: seq<Entry>, n: nat, o: Outcome): (r: seq<Entry>)
    ensures |r| == |log|
  {
    if n < |log| then log[n := log[n].(outcome := o, decided := |log|)] else log
  }

  function DoFinishValidate(s: Sys, c: Caller, tx: Tx): Sys
    requires tx.phase.Validating?
    requires forall i :: 0 <= i < |tx.rs| ==> tx.rs[i].st.RChecked?
  {
    if AllPass(tx)
    then WithTx(s, c, tx.(phase := AfterDecision(tx, |s.backups|)))
         .(log := SetOutcome(s.log, tx.phase.stamp, Committed))
    else WithTx(s, c, Abandon(tx)).(log := SetOutcome(s.log, tx.phase.stamp, Dropped))
  }

  function DoServeReplica(s: Sys, c: Caller, tx: Tx, i: nat, r: nat): Sys
    requires i < |tx.ws| && 1 <= r <= |s.backups|
  {
    var w := tx.ws[i];
    var (data, resp) := ServeBackup(s.backups[r - 1], w.UpdateRequest());
    WithTx(s, c, tx.(ws := tx.ws[i := w.(acks := w.acks + {r})]))
    .(backups := s.backups[r - 1 := data], fatal := s.fatal || resp.Fatal?)
  }

  function DoServePrimary(s: Sys, c: Caller, tx: Tx, i: nat): Sys
    requires i < |tx.ws|
  {
    var w := tx.ws[i];
    var (t, resp) := Serve(s.table, c, w.UpdateRequest(), 0);
    WithTx(s, c, tx.(ws := tx.ws[i := w.(st := WReleased(w.Val()))]))
    .(table := t, fatal := s.fatal || resp.Fatal?)
  }

  function DoServeUnlock(s: Sys, c: Caller, tx: Tx, i: nat): Sys
    requires i < |tx.ws|
  {
    var w := tx.ws[i];
    var (t, resp) := Serve(s.table, c, Unlock(w.key), 0);
    WithTx(s, c, tx.(ws := tx.ws[i := w.(st := WReleased(w.Val()))]))
    .(table := t, fatal := s.fatal || resp.Fatal?)
  }

  /** One step; a step that is not enabled changes nothing. */
  function Apply(s: Sys, step: Step): Sys {
    if !Enabled(s, step) then s else
    var c := step.c;
    var tx := s.txs[c];
    match step
    case Start(_) => WithTx(s, c, Tx(Active, [], [], |s.log|))
    case AddRead(_, k) => WithTx(s, c, tx.(rs := tx.rs + [RItem(k, RNew)]))
    case AddWrite(_, k, mode, obj) => WithTx(s, c, tx.(ws := tx.ws + [WItem(k, mode, WNew, obj, {})]))
    case SetObj(_, i, obj) => WithTx(s, c, tx.(ws := tx.ws[i := tx.ws[i].(obj := obj)]))
    case DoRead(_) => WithTx(s, c, tx.(phase := Reading, rs := SendReads(tx.rs), ws := SendLocks(tx.ws)))
    case ServeRead(_, i, junk) => DoServeRead(s, c, tx, i, junk)
    case ServeLock(_, i) => DoServeLock(s, c, tx, i)
    case FinishRead(_) => DoFinishRead(s, c, tx)
    case Commit(_) => DoCommit(s, c, tx)
    case ServeValidate(_, i, junk) => DoServeValidate(s, c, tx, i, junk)
    case FinishValidate(_) => DoFinishValidate(s, c, tx)
    case FinishLog(_) => WithTx(s, c, tx.(phase := FirstBackupBatch(tx, |s.backups|)))
    case ServeReplica(_, i, r) => DoServeReplica(s, c, tx, i, r)
    case FinishReplicas(_) =>
      WithTx(s, c, tx.(phase := NextBackupBatch(tx, |s.backups|)))
    case ServePrimary(_, i) => DoServePrimary(s, c, tx, i)
    case FinishPrimary(_) => WithTx(s, c, tx.(phase := Done(true)))
    case Abort(_) => WithTx(s, c, Abandon(tx))
    case ServeUnlock(_, i) => DoServeUnlock(s, c, tx, i)
    case FinishUnlock(_) => WithTx(s, c, tx.(phase := Done(false)))
    case CommitSingleRead(_) =>
      WithTx(s, c, tx.(phase := Done(true))).(log := SetOutcome(s.log, tx.rs[0].st.probe, Committed))
    case AbortRdonly(_) => WithTx(s, c, tx.(phase := Done(false)))
  }

  /** The state after a whole run. Every sequence of steps is a run. */
  function Execute(s: Sys, steps: seq<Step>): Sys {
    if steps == [] then s else Apply(Execute(s, steps[..|steps| - 1]), steps[|steps| - 1])
  }

  /** A freshly populated system: replicas agree, nothing is locked, no transaction runs. */
  ghost predicate Initial(s: Sys) {
    && s.table.data == s.init
    && (forall b: nat :: LockOf(s.table, b).holder == None && LockOf(s.table, b).count == 0)
    && (forall r :: 0 <= r < |s.backups| ==> s.backups[r] == s.init)
    && (forall c :: c in s.txs ==> s.txs[c] == Tx(Done(false), [], [], 0))
    && s.log == [] && !s.fatal
  }
}
