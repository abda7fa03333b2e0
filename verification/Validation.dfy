/** When validation succeeds. A re-read passes exactly if the bucket has not moved, with one
    exception: an absent key under the caller's own lock, whose answer has no version. */
module Validation {
  import opened Store
  import opened Protocol
  import opened History
  import opened Invariant
  import opened Serializability
  import Records

  /** A read that saw no key, of a bucket the caller itself has locked. */
  predicate Blind(t: Table, c: Caller, r: RItem)
    requires r.HasRead()
  {
    r.st.val.None? && r.key !in t.data && HeldBy(t, c, r.key.bucket)
  }

  /** What one re-read decides: a blind one compares what the response buffer held before. */
  lemma RereadOutcome(s: Sys, c: Caller, p: Phase, r: RItem, junk: nat)
    requires r.st.RResent? && ReadOk(s, c, p, r)
    ensures var resp := Serve(s.table, c, GetRdonly(r.key), junk).1;
            Passes(r.(st := RChecked(r.st.val, r.st.ver, r.st.probe, resp)))
            <==> if Blind(s.table, c, r) then junk == r.st.ver else Unmoved(s.table, c, r)
  {
  }

  /** Whether item i's bucket had not moved at the last re-read of it in a run. */
  predicate RereadUnmoved(s0: Sys, steps: seq<Step>, c: Caller, i: nat) {
    if steps == [] then false
    else
      var s, step := Execute(s0, steps[..|steps| - 1]), steps[|steps| - 1];
      if step.ServeValidate? && step.c == c && step.i == i && Enabled(s, step)
      then Unmoved(s.table, c, s.txs[c].rs[i])
      else RereadUnmoved(s0, steps[..|steps| - 1], c, i)
  }

  /** No key to be written shares the bucket of a key that was read as absent. The caller
      knows both sets before it commits. */
  predicate ApartFromAbsent(tx: Tx) {
    forall i, j :: 0 <= i < |tx.rs| && 0 <= j < |tx.ws| && tx.rs[i].HasRead() && tx.rs[i].st.val.None? ==>
      tx.rs[i].key.bucket != tx.ws[j].key.bucket
  }

  lemma {:induction false} NoItemNoHold(ws: seq<WItem>, b: nat)
    requires forall j :: 0 <= j < |ws| ==> ws[j].key.bucket != b
    ensures HeldItems(ws, b) == 0
  {
    if ws != [] { NoItemNoHold(ws[..|ws| - 1], b); }
  }

  lemma NotBlind(s: Sys, c: Caller, i: nat)
    requires LocksMatch(s) && c in s.txs && i < |s.txs[c].rs| && s.txs[c].rs[i].HasRead()
    requires ApartFromAbsent(s.txs[c])
    ensures !Blind(s.table, c, s.txs[c].rs[i])
  {
    var r := s.txs[c].rs[i];
    if r.st.val.None? {
      NoItemNoHold(s.txs[c].ws, r.key.bucket);
      assert Holds(s.table, c, r.key.bucket) == 0;
    }
  }

  /** Two moments of a transaction between which item i stays as it is, and no item's key
      or result changes. */
  predicate SameReads(tx: Tx, tx': Tx, i: nat) {
    && |tx.rs| == |tx'.rs| && i < |tx.rs| && tx.rs[i] == tx'.rs[i] && tx.ws == tx'.ws
    && (forall j :: 0 <= j < |tx.rs| ==>
          && tx.rs[j].key == tx'.rs[j].key && tx.rs[j].Val() == tx'.rs[j].Val()
          && (tx.rs[j].HasRead() <==> tx'.rs[j].HasRead()))
  }

  /** An item that has been re-read, one step earlier. */
  lemma CheckedBefore(s: Sys, step: Step, c: Caller, i: nat)
    requires c in s.txs && c in Apply(s, step).txs
    requires var tx := Apply(s, step).txs[c]; tx.phase.Validating? && i < |tx.rs| && tx.rs[i].st.RChecked?
    requires !(step.ServeValidate? && step.c == c && step.i == i && Enabled(s, step))
    ensures s.txs[c].phase.Validating? && SameReads(s.txs[c], Apply(s, step).txs[c], i)
  {
    hide Serve, ServeBackup, SendReads, SendLocks;
    hide AllPass, BatchAcked, Uses, SeenBy, WroteBy, Locked, SetOutcome, ReadResult;
    if step.c == c && Enabled(s, step) && !step.ServeValidate? {
      EntersValidation(s, step);
    }
  }

  /** Validation starts with every item sent again. */
  lemma EntersValidation(s: Sys, step: Step)
    requires Enabled(s, step) && !step.ServeValidate? && Apply(s, step).txs[step.c].phase.Validating?
    ensures forall i :: 0 <= i < |Apply(s, step).txs[step.c].rs| ==> Apply(s, step).txs[step.c].rs[i].st.RResent?
  {
    hide Serve, ServeBackup, SendReads, SendLocks;
    hide AllPass, BatchAcked, Uses, SeenBy, WroteBy, Locked, SetOutcome, ReadResult;
  }

  /** The step that re-reads item i. */
  lemma RereadNow(s: Sys, c: Caller, i: nat, junk: nat)
    requires Inv(s) && c in s.txs && Enabled(s, ServeValidate(c, i, junk)) && ApartFromAbsent(s.txs[c])
    ensures var r := Apply(s, ServeValidate(c, i, junk)).txs[c].rs[i];
            r.st.RChecked? && (Passes(r) <==> Unmoved(s.table, c, s.txs[c].rs[i]))
  {
    var tx := s.txs[c];
    assert TxOk(s, c) && ReadOk(s, c, tx.phase, tx.rs[i]);
    NotBlind(s, c, i);
    RereadOutcome(s, c, tx.phase, tx.rs[i], junk);
    hide Inv, TxOk, ReadOk, Serve, Unmoved, Blind;
  }

  lemma RereadApart(s: Sys, c: Caller, i: nat, junk: nat)
    requires c in s.txs && Enabled(s, ServeValidate(c, i, junk))
    requires ApartFromAbsent(Apply(s, ServeValidate(c, i, junk)).txs[c])
    ensures ApartFromAbsent(s.txs[c])
  {
    hide Serve;
    var tx, tx' := s.txs[c], Apply(s, ServeValidate(c, i, junk)).txs[c];
    assert forall j :: 0 <= j < |tx.rs| && tx.rs[j].HasRead() ==>
        tx'.rs[j].HasRead() && tx'.rs[j].key == tx.rs[j].key && tx'.rs[j].st.val == tx.rs[j].st.val;
  }

  /** In every run, a re-read item of a transaction whose absent keys are apart from its
      writes passes exactly if its bucket had not moved when it was re-read. */
  lemma {:induction false} PassesIfUnmoved(s0: Sys, steps: seq<Step>, c: Caller, i: nat)
    requires Initial(s0) && c in Execute(s0, steps).txs
    requires var tx := Execute(s0, steps).txs[c];
             tx.phase.Validating? && i < |tx.rs| && tx.rs[i].st.RChecked? && ApartFromAbsent(tx)
    ensures Passes(Execute(s0, steps).txs[c].rs[i]) <==> RereadUnmoved(s0, steps, c, i)
    decreases |steps|
  {
    if steps != [] {
      var before, step := steps[..|steps| - 1], steps[|steps| - 1];
      var s := Execute(s0, before);
      RunKeeps(s0, before);
      ApplyFixes(s, step);
      hide Inv, Apply, Initial;
      if step.ServeValidate? && step.c == c && step.i == i && Enabled(s, step) {
        RereadApart(s, c, i, step.junk);
        RereadNow(s, c, i, step.junk);
      } else {
        CheckedBefore(s, step, c, i);
        PassesIfUnmoved(s0, before, c, i);
      }
    }
  }

  /** In every run, such a transaction commits exactly if none of the buckets it read from
      had moved when it was re-read. */
  lemma CommitsIfUnmoved(s0: Sys, steps: seq<Step>, c: Caller)
    requires Initial(s0) && Enabled(Execute(s0, steps), FinishValidate(c))
    requires ApartFromAbsent(Execute(s0, steps).txs[c])
    ensures var s := Execute(s0, steps);
            Records.Succeeded(Apply(s, FinishValidate(c)).txs[c].phase)
            <==> forall i :: 0 <= i < |s.txs[c].rs| ==> RereadUnmoved(s0, steps, c, i)
  {
    var s := Execute(s0, steps);
    forall i | 0 <= i < |s.txs[c].rs| ensures Passes(s.txs[c].rs[i]) <==> RereadUnmoved(s0, steps, c, i) {
      PassesIfUnmoved(s0, steps, c, i);
    }
    DecidesByAllPass(s, c);
    hide Execute, RereadUnmoved, Apply, Passes, Initial;
    if AllPass(s.txs[c]) {
      forall i | 0 <= i < |s.txs[c].rs| ensures RereadUnmoved(s0, steps, c, i) {
        assert Passes(s.txs[c].rs[i]);
      }
    } else {
      var i :| 0 <= i < |s.txs[c].rs| && !Passes(s.txs[c].rs[i]);
      assert !RereadUnmoved(s0, steps, c, i);
    }
  }

  lemma DecidesByAllPass(s: Sys, c: Caller)
    requires Enabled(s, FinishValidate(c))
    ensures Records.Succeeded(Apply(s, FinishValidate(c)).txs[c].phase) <==> AllPass(s.txs[c])
  {
  }

  // A transaction whose absent read shares a bucket with its own insert.

  const READ_KEY := Key(0, 1)
  const INSERT_KEY := Key(0, 2)

  /** A system of one caller, with no backups and nothing stored. */
  function At(tx: Tx, locks: map<nat, Lock>, log: seq<Entry>): Sys {
    Sys(map[], Table(map[], locks), [], map[0 := tx], log, false)
  }

  function EmptySystem(): Sys { At(Tx(Done(false), [], [], 0), map[], []) }

  function ReadIn(st: RState): seq<RItem> { [RItem(READ_KEY, st)] }
  function InsertIn(st: WState, v: Value): seq<WItem> { [WItem(INSERT_KEY, Insert, st, v, {})] }
  function ReadEntry(): Entry { Entry(0, map[READ_KEY := None], map[], Open, 0, 0) }

  lemma BlindBuild(v: Value)
    ensures Apply(EmptySystem(), Start(0)) == At(Tx(Active, [], [], 0), map[], [])
    ensures Apply(At(Tx(Active, [], [], 0), map[], []), AddRead(0, READ_KEY))
            == At(Tx(Active, ReadIn(RNew), [], 0), map[], [])
    ensures Apply(At(Tx(Active, ReadIn(RNew), [], 0), map[], []), AddWrite(0, INSERT_KEY, Insert, v))
            == At(Tx(Active, ReadIn(RNew), InsertIn(WNew, v), 0), map[], [])
  {
    var rs: seq<RItem>, ws: seq<WItem> := [], [];
    assert rs + [RItem(READ_KEY, RNew)] == ReadIn(RNew);
    assert ws + [WItem(INSERT_KEY, Insert, WNew, v, {})] == InsertIn(WNew, v);
  }

  lemma BlindSend(v: Value)
    ensures Apply(At(Tx(Active, ReadIn(RNew), InsertIn(WNew, v), 0), map[], []), DoRead(0))
            == At(Tx(Reading, ReadIn(RSent), InsertIn(WSent, v), 0), map[], [])
  {
    assert SendReads(ReadIn(RNew)) == ReadIn(RSent) && SendLocks(InsertIn(WNew, v)) == InsertIn(WSent, v);
  }

  lemma BlindServe(v: Value)
    ensures Apply(At(Tx(Reading, ReadIn(RSent), InsertIn(WSent, v), 0), map[], []), ServeRead(0, 0, 0))
            == At(Tx(Reading, ReadIn(RGot(None, 0, 0)), InsertIn(WSent, v), 0), map[], [ReadEntry()])
    ensures Apply(At(Tx(Reading, ReadIn(RGot(None, 0, 0)), InsertIn(WSent, v), 0), map[], [ReadEntry()]),
                  ServeLock(0, 0))
            == At(Tx(Reading, ReadIn(RGot(None, 0, 0)), InsertIn(WLocked(None), v), 0),
                  map[0 := Lock(0, Some(0), 1)], [ReadEntry()])
  {
    assert ReadIn(RSent)[0 := RItem(READ_KEY, RGot(None, 0, 0))] == ReadIn(RGot(None, 0, 0));
    assert InsertIn(WSent, v)[0 := WItem(INSERT_KEY, Insert, WLocked(None), v, {})] == InsertIn(WLocked(None), v);
  }

  /** The transaction as it waits for its re-read: the bucket is still at version 0, and the
      transaction's insert has it locked. */
  function Waiting(v: Value): Sys {
    var tx := Tx(Active, ReadIn(RGot(None, 0, 0)), InsertIn(WLocked(None), v), 0);
    At(Tx(Validating(1), ReadIn(RResent(None, 0, 0)), tx.ws, 0), map[0 := Lock(0, Some(0), 1)],
       [ReadEntry(), Entry(0, SeenBy(tx), WroteBy(tx.ws), Open, 0, 0)])
  }

  lemma BlindCommit(v: Value)
    ensures var locks := map[0 := Lock(0, Some(0), 1)];
            var tx := Tx(Active, ReadIn(RGot(None, 0, 0)), InsertIn(WLocked(None), v), 0);
            && Apply(At(tx.(phase := Reading), locks, [ReadEntry()]), FinishRead(0)) == At(tx, locks, [ReadEntry()])
            && Apply(At(tx, locks, [ReadEntry()]), Commit(0)) == Waiting(v)
  {
    hide SeenBy, WroteBy;
    assert SendValidation(ReadIn(RGot(None, 0, 0))) == ReadIn(RResent(None, 0, 0));
  }

  /** The run up to the re-read. */
  function BlindRun(v: Value): seq<Step> {
    [Start(0), AddRead(0, READ_KEY), AddWrite(0, INSERT_KEY, Insert, v), DoRead(0), ServeRead(0, 0, 0),
     ServeLock(0, 0), FinishRead(0), Commit(0)]
  }

  lemma ExecuteNext(s0: Sys, steps: seq<Step>, n: nat)
    requires n < |steps|
    ensures Execute(s0, steps[..n + 1]) == Apply(Execute(s0, steps[..n]), steps[n])
  {
    assert steps[..n + 1][..n] == steps[..n];
  }

  lemma BlindRunsTo(v: Value)
    ensures Initial(EmptySystem()) && Execute(EmptySystem(), BlindRun(v)) == Waiting(v)
  {
    BlindBuild(v);
    BlindSend(v);
    BlindServe(v);
    BlindCommit(v);
    hide Apply, Waiting;
    var s0, run := EmptySystem(), BlindRun(v);
    assert run[..0] == [] && Execute(s0, []) == s0 && run[..8] == run;
    ExecuteNext(s0, run, 0);
    ExecuteNext(s0, run, 1);
    ExecuteNext(s0, run, 2);
    ExecuteNext(s0, run, 3);
    ExecuteNext(s0, run, 4);
    ExecuteNext(s0, run, 5);
    ExecuteNext(s0, run, 6);
    ExecuteNext(s0, run, 7);
  }

  /** The only bucket read has not moved and the key is still absent, yet unless the response
      buffer happened to hold the right version the transaction aborts. */
  lemma NeedlessAbort(v: Value, junk: nat)
    requires junk != 0
    ensures var s := Execute(EmptySystem(), BlindRun(v));
            && Initial(EmptySystem()) && Enabled(s, ServeValidate(0, 0, junk))
            && Unmoved(s.table, 0, s.txs[0].rs[0]) && READ_KEY !in s.table.data
            && var t := Apply(s, ServeValidate(0, 0, junk));
            && Enabled(t, FinishValidate(0)) && Apply(t, FinishValidate(0)).txs[0].phase == Unlocking
  {
    BlindRunsTo(v);
    hide SeenBy, WroteBy, Execute, Initial;
    var s := Waiting(v);
    var t := Apply(s, ServeValidate(0, 0, junk));
    var checked := RItem(READ_KEY, RChecked(None, 0, 0, RdNotFound(junk)));
    assert t.txs[0].rs[0] == checked && !Passes(checked);
    assert t.txs[0].ws[0].st.WLocked?;
  }

  // Lock requests that fail.

  predicate FailsToLock(t: Table, c: Caller, req: Request) {
    var resp := Serve(t, c, req, 0).1;
    resp.UpdLocked? || resp.UpdNotFound? || resp.InsLocked? || resp.InsExists?
  }

  /** A lock request that fails leaves every lock, versions included, as it was exactly if the
      bucket was already held; on a free bucket it moves the version. */
  lemma FailedLockMovesFree(t: Table, c: Caller, req: Request)
    requires ValidTable(t) && FailsToLock(t, c, req)
    ensures (forall b: nat :: LockOf(Serve(t, c, req, 0).0, b) == LockOf(t, b))
            <==> LockOf(t, req.key.bucket).holder.Some?
    ensures LockOf(t, req.key.bucket).holder.None? ==>
              Version(Serve(t, c, req, 0).0, req.key.bucket) == Version(t, req.key.bucket) + 1
    ensures Serve(t, c, req, 0).0.data == t.data
  {
    assert LockOf(t, req.key.bucket).holder.Some? <==> LockOf(t, req.key.bucket).count > 0;
  }
}
