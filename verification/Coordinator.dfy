/** The coordinator between two yields: the loops that turn read and write sets into a
    batch of requests, and the loops that read the batch of responses back. */
module Coordinator {
  import opened Store
  import opened Protocol
  import Mappings

  datatype Status = InProgress | MustAbort | Committed | Aborted

  /** The machines of an item's replicas, saved to avoid recomputation. */
  datatype Home = Home(primary: nat, backups: seq<int>)

  predicate HomeOf(cfg: Mappings.Config, hash: nat, home: Home)
    requires cfg.Accepted()
  {
    && home.primary == Mappings.PrimaryMn(cfg, hash) && |home.backups| == cfg.backups
    && forall i :: 0 <= i < cfg.backups ==> home.backups[i] == Mappings.ReplicaMn(cfg, home.primary, i + 1)
  }

  /** A read-set item: what execution saw, and the version saved for validation. */
  datatype ReadItem = ReadItem(key: Key, home: Home, val: Option<Value>, version: nat)

  datatype WriteItem = WriteItem(key: Key, home: Home, mode: Mode, obj: Value, locked: bool) {
    function Model(st: WState): WItem { WItem(key, mode, st, obj, {}) }
  }

  /** What the response to the execute-phase read of an item makes of it. */
  function AfterRead(item: ReadItem, resp: Response): ReadItem {
    var st := ReadResult(resp, 0);
    if st.RGot? then item.(val := st.val, version := st.ver) else item
  }

  function AfterLock(item: WriteItem, resp: Response): WriteItem {
    var w := Protocol.Locked(item.Model(WSent), resp);
    item.(obj := w.obj, locked := w.st.WLocked?)
  }

  predicate Confirms(item: ReadItem, resp: Response) {
    Passes(RItem(item.key, RChecked(item.val, item.version, 0, resp)))
  }

  /** The keys of the locked items, in order: those an abort unlocks. */
  function LockedKeys(ws: seq<WriteItem>): seq<Key> {
    if ws == [] then []
    else LockedKeys(ws[..|ws| - 1]) + if ws[|ws| - 1].locked then [ws[|ws| - 1].key] else []
  }

  /** The updates one replica gets: one per item, in order. */
  function OneReplica(ws: seq<WriteItem>, r: nat): seq<(nat, Request)> {
    if ws == [] then []
    else OneReplica(ws[..|ws| - 1], r) + [(r, ws[|ws| - 1].Model(WLocked(None)).UpdateRequest())]
  }

  function UpdateBatch(ws: seq<WriteItem>, replicas: seq<nat>): seq<(nat, Request)> {
    if replicas == [] then []
    else UpdateBatch(ws, replicas[..|replicas| - 1]) + OneReplica(ws, replicas[|replicas| - 1])
  }

  lemma {:induction false} OneReplicaAt(ws: seq<WriteItem>, r: nat)
    ensures |OneReplica(ws, r)| == |ws|
    ensures forall i :: 0 <= i < |ws| ==> OneReplica(ws, r)[i] == (r, ws[i].Model(WLocked(None)).UpdateRequest())
  {
    if ws != [] { OneReplicaAt(ws[..|ws| - 1], r); }
  }

  lemma {:induction false} UpdateBatchLength(ws: seq<WriteItem>, replicas: seq<nat>)
    ensures |UpdateBatch(ws, replicas)| == |replicas| * |ws|
  {
    if replicas != [] {
      var n := |replicas| - 1;
      UpdateBatchLength(ws, replicas[..n]);
      OneReplicaAt(ws, replicas[n]);
      assert (n + 1) * |ws| == n * |ws| + |ws|;
    }
  }

  /** A batch asks each of its replicas to apply each item, and no other replica. */
  lemma {:induction false} UpdateBatchCovers(ws: seq<WriteItem>, replicas: seq<nat>, i: nat)
    requires i < |ws|
    ensures forall r :: r in replicas ==> (r, ws[i].Model(WLocked(None)).UpdateRequest()) in UpdateBatch(ws, replicas)
    ensures forall q :: q in UpdateBatch(ws, replicas) ==> q.0 in replicas
  {
    if replicas != [] {
      var n := |replicas| - 1;
      UpdateBatchCovers(ws, replicas[..n], i);
      OneReplicaAt(ws, replicas[n]);
      assert OneReplica(ws, replicas[n])[i] in OneReplica(ws, replicas[n]);
      assert replicas == replicas[..n] + [replicas[n]];
    }
  }

  class Transaction {
    var status: Status
    var readSet: seq<ReadItem>
    var rsIndex: nat
    var writeSet: seq<WriteItem>
    var wsIndex: nat
    var lockserverLocked: bool

    ghost predicate Valid()
      reads this
    {
      rsIndex <= |readSet| && wsIndex <= |writeSet|
    }

    constructor ()
      ensures Valid() && status.Aborted? && readSet == [] && writeSet == [] && !lockserverLocked
    {
      status, readSet, rsIndex, writeSet, wsIndex, lockserverLocked := Aborted, [], 0, [], 0, false;
    }

    method Start()
      requires Valid() && (status.Committed? || status.Aborted?)
      modifies this
      ensures Valid() && status.InProgress? && readSet == [] && writeSet == [] && rsIndex == 0 && wsIndex == 0
      ensures !lockserverLocked
    {
      status, readSet, rsIndex, writeSet, wsIndex, lockserverLocked := InProgress, [], 0, [], 0, false;
    }

    /** The machines of a key with the given hash. */
    static method Locate(cfg: Mappings.Config, hash: nat) returns (home: Home)
      requires cfg.Accepted()
      ensures HomeOf(cfg, hash, home)
    {
      var primary := Mappings.PrimaryMn(cfg, hash);
      var backups := [];
      for i := 0 to cfg.backups
        invariant |backups| == i
        invariant forall j :: 0 <= j < i ==> backups[j] == Mappings.ReplicaMn(cfg, primary, j + 1)
      {
        backups := backups + [Mappings.BackupMn(cfg, primary, i)];
      }
      home := Home(primary, backups);
    }

    method AddToReadSet(cfg: Mappings.Config, k: Key, hash: nat) returns (mn: nat)
      requires Valid() && status.InProgress? && cfg.Accepted()
      modifies this`readSet
      ensures Valid() && mn == Mappings.PrimaryMn(cfg, hash) && |readSet| == |old(readSet)| + 1
      ensures HomeOf(cfg, hash, readSet[|old(readSet)|].home)
      ensures readSet == old(readSet) + [ReadItem(k, readSet[|old(readSet)|].home, None, 0)]
    {
      var home := Locate(cfg, hash);
      readSet := readSet + [ReadItem(k, home, None, 0)];
      mn := home.primary;
    }

    method AddToWriteSet(cfg: Mappings.Config, k: Key, hash: nat, mode: Mode, obj: Value) returns (mn: nat)
      requires Valid() && status.InProgress? && cfg.Accepted()
      modifies this`writeSet
      ensures Valid() && mn == Mappings.PrimaryMn(cfg, hash) && |writeSet| == |old(writeSet)| + 1
      ensures HomeOf(cfg, hash, writeSet[|old(writeSet)|].home)
      ensures writeSet == old(writeSet) + [WriteItem(k, writeSet[|old(writeSet)|].home, mode, obj, false)]
    {
      var home := Locate(cfg, hash);
      writeSet := writeSet + [WriteItem(k, home, mode, obj, false)];
      mn := home.primary;
    }

    /** First half of do_read: one read per new read-set item, then one lock request per
        new write-set item. */
    method ReadRequests() returns (reqs: seq<Request>)
      requires Valid()
      ensures |reqs| == |readSet| - rsIndex + |writeSet| - wsIndex
      ensures forall i :: rsIndex <= i < |readSet| ==> reqs[i - rsIndex] == GetRdonly(readSet[i].key)
      ensures forall i :: wsIndex <= i < |writeSet| ==>
                reqs[|readSet| - rsIndex + i - wsIndex] == writeSet[i].Model(WNew).LockRequest()
    {
      reqs := [];
      var i := rsIndex;
      while i < |readSet|
        invariant rsIndex <= i <= |readSet| && |reqs| == i - rsIndex
        invariant forall j :: rsIndex <= j < i ==> reqs[j - rsIndex] == GetRdonly(readSet[j].key)
      {
        reqs := reqs + [GetRdonly(readSet[i].key)];
        i := i + 1;
      }
      var n := |reqs|;
      i := wsIndex;
      while i < |writeSet|
        invariant wsIndex <= i <= |writeSet| && |reqs| == n + i - wsIndex
        invariant forall j :: rsIndex <= j < |readSet| ==> reqs[j - rsIndex] == GetRdonly(readSet[j].key)
        invariant forall j :: wsIndex <= j < i ==> reqs[n + j - wsIndex] == writeSet[j].Model(WNew).LockRequest()
      {
        var item := writeSet[i];
        if item.mode != Insert {
          reqs := reqs + [GetForUpd(item.key)];
        } else {
          reqs := reqs + [LockForIns(item.key)];
        }
        i := i + 1;
      }
    }

    /** Second half of do_read, read set: response j goes to the item that sent request j. */
    method FinishReads(resps: seq<Response>)
      requires Valid() && status.InProgress? && |resps| >= |readSet| - rsIndex
      modifies this`readSet, this`status
      ensures Valid() && |readSet| == |old(readSet)|
      ensures forall i :: 0 <= i < |readSet| ==>
                readSet[i] == if i < rsIndex then old(readSet)[i] else AfterRead(old(readSet)[i], resps[i - rsIndex])
      ensures status.InProgress? || status.MustAbort?
      ensures status.MustAbort? <==> exists j :: 0 <= j < |readSet| - rsIndex && ReadResult(resps[j], 0).RLocked?
    {
      ghost var rs := readSet;
      var reqI, i := 0, rsIndex;
      while i < |readSet|
        invariant rsIndex <= i <= |readSet| == |rs| && reqI == i - rsIndex
        invariant status.InProgress? || status.MustAbort?
        invariant forall j :: 0 <= j < |rs| ==>
                    readSet[j] == if rsIndex <= j < i then AfterRead(rs[j], resps[j - rsIndex]) else rs[j]
        invariant status.MustAbort? <==> exists j :: 0 <= j < reqI && ReadResult(resps[j], 0).RLocked?
      {
        match resps[reqI] {
          case RdSuccess(v, ver) => readSet := readSet[i := readSet[i].(val := Some(v), version := ver)];
          case RdNotFound(ver) => readSet := readSet[i := readSet[i].(val := None, version := ver)];
          case _ => status := Status.MustAbort;
        }
        reqI := reqI + 1;
        i := i + 1;
      }
    }

    /** Second half of do_read, write set: which locks were taken, and the objects fetched.
        The responses start where those of the read set end. */
    method FinishLocks(resps: seq<Response>)
      requires Valid() && (status.InProgress? || status.MustAbort?)
      requires |resps| == |readSet| - rsIndex + |writeSet| - wsIndex
      modifies this`writeSet, this`status, this`rsIndex, this`wsIndex
      ensures Valid() && rsIndex == |readSet| && wsIndex == |writeSet| == |old(writeSet)|
      ensures forall i :: 0 <= i < |writeSet| ==>
                writeSet[i] == if i < old(wsIndex) then old(writeSet)[i]
                               else AfterLock(old(writeSet)[i], resps[|readSet| - old(rsIndex) + i - old(wsIndex)])
      ensures status.InProgress? || status.MustAbort?
      ensures status.MustAbort? <==>
                old(status.MustAbort?) ||
                exists j :: |readSet| - old(rsIndex) <= j < |resps| && LockResult(resps[j]).WFailed?
    {
      ghost var ws := writeSet;
      var first := |readSet| - rsIndex;
      var reqI, i := first, wsIndex;
      while i < |writeSet|
        invariant wsIndex <= i <= |writeSet| == |ws| && reqI == first + i - wsIndex
        invariant rsIndex == old(rsIndex) && wsIndex == old(wsIndex) && (status.InProgress? || status.MustAbort?)
        invariant forall j :: 0 <= j < |ws| ==>
                    writeSet[j] == if wsIndex <= j < i then AfterLock(ws[j], resps[first + j - wsIndex]) else ws[j]
        invariant status.MustAbort? <==>
                    old(status.MustAbort?) || exists j :: first <= j < reqI && LockResult(resps[j]).WFailed?
      {
        var item := writeSet[i];
        match resps[reqI] {
          case UpdSuccess(v) => writeSet := writeSet[i := item.(obj := v, locked := true)];
          case InsSuccess => writeSet := writeSet[i := item.(locked := true)];
          case _ =>
            writeSet := writeSet[i := item.(locked := false)];
            status := Status.MustAbort;
        }
        reqI := reqI + 1;
        i := i + 1;
      }
      rsIndex, wsIndex := |readSet|, |writeSet|;
    }

    /** The check of validate(): it may stop at the first failure, and succeeds only after
        every key. */
    method Validate(resps: seq<Response>) returns (ok: bool)
      requires Valid() && |resps| == |readSet|
      ensures ok <==> forall i :: 0 <= i < |readSet| ==> Confirms(readSet[i], resps[i])
    {
      var i := 0;
      while i < |readSet|
        invariant 0 <= i <= |readSet|
        invariant forall j :: 0 <= j < i ==> Confirms(readSet[j], resps[j])
      {
        var item := readSet[i];
        if item.val.Some? {
          if resps[i].RdSuccess? {
            if resps[i].version != item.version { return false; }
          } else {
            return false;
          }
        } else {
          if resps[i].RdNotFound? {
            if resps[i].version != item.version { return false; }
          } else {
            return false;
          }
        }
        i := i + 1;
      }
      return true;
    }

    /** send_updates_to_replicas: every item to every replica of the batch. */
    method UpdateRequests(replicas: seq<nat>) returns (reqs: seq<(nat, Request)>)
      requires Valid()
      ensures reqs == UpdateBatch(writeSet, replicas)
    {
      reqs := [];
      for r := 0 to |replicas|
        invariant reqs == UpdateBatch(writeSet, replicas[..r])
      {
        ghost var done := reqs;
        for w := 0 to |writeSet|
          invariant reqs == done + OneReplica(writeSet[..w], replicas[r])
        {
          var item := writeSet[w];
          if item.mode != Delete {
            reqs := reqs + [(replicas[r], Put(item.key, item.obj))];
          } else {
            reqs := reqs + [(replicas[r], Del(item.key))];
          }
          assert writeSet[..w + 1][..w] == writeSet[..w];
        }
        assert writeSet[..|writeSet|] == writeSet;
        assert replicas[..r + 1][..r] == replicas[..r];
      }
      assert replicas[..|replicas|] == replicas;
    }

    /** abort: one unlock for each item whose lock was taken, none for the others. */
    method UnlockRequests() returns (reqs: seq<Request>)
      requires Valid()
      ensures |reqs| == |LockedKeys(writeSet)|
      ensures forall i :: 0 <= i < |reqs| ==> reqs[i] == Unlock(LockedKeys(writeSet)[i])
    {
      reqs := [];
      for i := 0 to |writeSet|
        invariant |reqs| == |LockedKeys(writeSet[..i])|
        invariant forall j :: 0 <= j < |reqs| ==> reqs[j] == Unlock(LockedKeys(writeSet[..i])[j])
      {
        assert writeSet[..i + 1][..i] == writeSet[..i];
        if writeSet[i].locked {
          reqs := reqs + [Unlock(writeSet[i].key)];
        }
      }
      assert writeSet[..|writeSet|] == writeSet;
    }
  }

  function Flatten(batches: seq<seq<nat>>): seq<nat> {
    if batches == [] then [] else Flatten(batches[..|batches| - 1]) + batches[|batches| - 1]
  }

  /** The replica numbers lo .. hi - 1. */
  function Range(lo: nat, hi: nat): (rs: seq<nat>)
    requires lo <= hi
    ensures |rs| == hi - lo && forall i :: 0 <= i < |rs| ==> rs[i] == lo + i
  {
    seq(hi - lo, i requires 0 <= i < hi - lo => lo + i)
  }

  /** The backup phase of a commit, batch by batch, as the protocol has it. */
  function BackupPhase(tx: Tx, f: nat, b: nat): Phase {
    if b == 0 then FirstBackupBatch(tx, f)
    else
      var before := BackupPhase(tx, f, b - 1);
      if before.UpdatingBackups? then NextBackupBatch(tx.(phase := before), f) else before
  }

  /** The batches are those of the protocol's phases, one after the other, and then its
      update of the primary. */
  ghost predicate Follows(tx: Tx, f: nat, batches: seq<seq<nat>>) {
    && (forall b :: 0 <= b < |batches| ==>
          && BackupPhase(tx, f, b).UpdatingBackups?
          && BackupPhase(tx, f, b).lo <= BackupPhase(tx, f, b).hi
          && batches[b] == Range(BackupPhase(tx, f, b).lo, BackupPhase(tx, f, b).hi))
    && BackupPhase(tx, f, |batches|).UpdatingPrimary?
  }

  lemma {:induction false} SeparatePhases(tx: Tx, f: nat, b: nat)
    requires |tx.ws| * f > MAX_MSG_CORO && b < f
    ensures BackupPhase(tx, f, b) == UpdatingBackups(b + 1, b + 2)
    ensures b + 1 == f ==> BackupPhase(tx, f, f) == UpdatingPrimary
  {
    if b > 0 { SeparatePhases(tx, f, b - 1); }
  }

  /** The replica batches of commit: the backups 1 .. f in order, all in one batch exactly if
      their requests fit one, else one by one; then the primary alone. None is empty and
      none makes more requests than a batch may hold. */
  method ReplicaBatches(writes: nat, f: nat) returns (batches: seq<seq<nat>>)
    requires 0 < writes <= MAX_MSG_CORO
    ensures |batches| > 0 && batches[|batches| - 1] == [0]
    ensures |batches| - 1 == if f == 0 then 0 else if writes * f <= MAX_MSG_CORO then 1 else f
    ensures Flatten(batches[..|batches| - 1]) == Range(1, f + 1)
    ensures forall b :: 0 <= b < |batches| ==> 0 < |batches[b]| && writes * |batches[b]| <= MAX_MSG_CORO
    ensures f > 0 ==> forall tx: Tx :: |tx.ws| == writes ==> Follows(tx, f, batches[..|batches| - 1])
  {
    batches := [];
    if f > 0 {
      if writes * f <= MAX_MSG_CORO {
        var all := Range(1, f + 1);
        batches := [all];
        assert batches[..0] == [];
        assert Flatten(batches) == Flatten(batches[..0]) + all == all;
      } else {
        for r := 1 to f + 1
          invariant |batches| == r - 1
          invariant Flatten(batches) == Range(1, r)
          invariant forall b :: 0 <= b < |batches| ==> batches[b] == [b + 1]
        {
          ghost var done := batches;
          batches := batches + [[r]];
          assert batches[..|batches| - 1] == done;
        }
      }
    }
    ghost var done := batches;
    BatchesFollow(writes, f, done);
    batches := batches + [[0]];
    assert batches[..|batches| - 1] == done;
  }

  lemma BatchesFollow(writes: nat, f: nat, batches: seq<seq<nat>>)
    requires if f == 0 then batches == []
             else if writes * f <= MAX_MSG_CORO then batches == [Range(1, f + 1)]
             else |batches| == f && forall b :: 0 <= b < f ==> batches[b] == [b + 1]
    ensures f > 0 ==> forall tx: Tx :: |tx.ws| == writes ==> Follows(tx, f, batches)
  {
    forall tx: Tx | f > 0 && |tx.ws| == writes ensures Follows(tx, f, batches) {
      if writes * f > MAX_MSG_CORO {
        forall b | 0 <= b < f
          ensures BackupPhase(tx, f, b) == UpdatingBackups(b + 1, b + 2) && batches[b] == Range(b + 1, b + 2) {
          SeparatePhases(tx, f, b);
        }
        SeparatePhases(tx, f, f - 1);
      }
    }
  }
}
