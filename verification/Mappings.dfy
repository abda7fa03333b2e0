/** Where keys live, and how large the coalesced messages of a transaction can get. */
module Mappings {
  import Modular

  const MAX_BACKUPS: nat := 2
  const MAX_MSG_CORO: nat := 16

  datatype Config = Config(machines: nat, workersPerMachine: nat, backups: nat, useLockServer: bool) {
    function Replicas(): nat { 1 + backups }

    /** Machines that host data: the last one may be the lock server. */
    function Primaries(): int { if useLockServer then machines - 1 else machines }

    /** What the constructor checks. */
    predicate Checked() {
      backups <= MAX_BACKUPS && Replicas() <= machines
    }

    /** It divides by the number of data machines and of workers, which are assumed not to be
        zero. */
    predicate Accepted() {
      Checked() && workersPerMachine > 0 && Primaries() > 0
    }
  }

  function PrimaryMn(cfg: Config, hash: nat): (mn: nat)
    requires cfg.Accepted()
    ensures mn < cfg.Primaries()
  {
    hash / 0x1_0000_0000 % cfg.Primaries()
  }

  function BackupMn(cfg: Config, primary: nat, back: nat): int {
    var mn := primary + (back + 1);
    if mn >= cfg.Primaries() then mn - cfg.Primaries() else mn
  }

  /** Replica 0 is the primary, replica i the backup of index i - 1. */
  function ReplicaMn(cfg: Config, primary: nat, repl: nat): int {
    if repl == 0 then primary else BackupMn(cfg, primary, repl - 1)
  }

  /** A key's replicas are on different data machines exactly when there are no more replicas
      than data machines. */
  lemma ReplicasDistinct(cfg: Config, primary: nat)
    requires cfg.Accepted() && primary < cfg.Primaries()
    ensures (forall i, j :: 0 <= i < j < cfg.Replicas() ==> ReplicaMn(cfg, primary, i) != ReplicaMn(cfg, primary, j))
            <==> cfg.Replicas() <= cfg.Primaries()
    ensures cfg.Replicas() <= cfg.Primaries() ==>
              forall i :: 0 <= i < cfg.Replicas() ==> 0 <= ReplicaMn(cfg, primary, i) < cfg.Primaries()
  {
    if cfg.Replicas() > cfg.Primaries() {
      var n := cfg.Primaries();
      assert ReplicaMn(cfg, primary, 0) == ReplicaMn(cfg, primary, n);
    }
  }

  /** The backups of a key are always on different data machines. */
  lemma BackupsDistinct(cfg: Config, primary: nat)
    requires cfg.Accepted() && primary < cfg.Primaries()
    ensures forall i, j :: 1 <= i < j < cfg.Replicas() ==> ReplicaMn(cfg, primary, i) != ReplicaMn(cfg, primary, j)
    ensures forall i :: 0 <= i < cfg.Replicas() ==> 0 <= ReplicaMn(cfg, primary, i) < cfg.Primaries()
  {
  }

  /** The constructor does not rule the bad case out: a lock server on the last of as many
      machines as there are replicas leaves two replicas on one machine. */
  lemma LockServerOverlap()
    ensures var cfg := Config(2, 1, 1, true); cfg.Accepted() && ReplicaMn(cfg, 0, 0) == ReplicaMn(cfg, 0, 1)
  {
  }

  /** The worker that inserts a key's replica at population time. */
  function Populator(cfg: Config, hash: nat, repl: nat): int
    requires cfg.Accepted()
  {
    ReplicaMn(cfg, PrimaryMn(cfg, hash), repl) * cfg.workersPerMachine + hash / 0x10_0000 % cfg.workersPerMachine
  }

  predicate ShouldPopulate(cfg: Config, worker: nat, hash: nat, repl: nat)
    requires cfg.Accepted()
  {
    worker == Populator(cfg, hash, repl)
  }

  /** Each replica is populated by exactly one worker, one on the replica's machine; and no
      worker populates two replicas of a key. */
  lemma OnePopulator(cfg: Config, hash: nat, repl: nat)
    requires cfg.Accepted() && cfg.Replicas() <= cfg.Primaries() && repl < cfg.Replicas()
    ensures var w := Populator(cfg, hash, repl);
            && 0 <= w < cfg.Primaries() * cfg.workersPerMachine
            && w / cfg.workersPerMachine == ReplicaMn(cfg, PrimaryMn(cfg, hash), repl)
            && forall v: nat :: ShouldPopulate(cfg, v, hash, repl) <==> v == w
    ensures forall other :: 0 <= other < cfg.Replicas() && other != repl ==>
              Populator(cfg, hash, other) != Populator(cfg, hash, repl)
  {
    var n, p := cfg.workersPerMachine, PrimaryMn(cfg, hash);
    ReplicasDistinct(cfg, p);
    PopulatorMachine(cfg, hash, repl);
    forall other | 0 <= other < cfg.Replicas() && other != repl
      ensures Populator(cfg, hash, other) != Populator(cfg, hash, repl)
    {
      PopulatorMachine(cfg, hash, other);
      assert ReplicaMn(cfg, p, other) != ReplicaMn(cfg, p, repl);
    }
  }

  lemma PopulatorMachine(cfg: Config, hash: nat, repl: nat)
    requires cfg.Accepted() && cfg.Replicas() <= cfg.Primaries() && repl < cfg.Replicas()
    ensures var w := Populator(cfg, hash, repl);
            && 0 <= w < cfg.Primaries() * cfg.workersPerMachine
            && w / cfg.workersPerMachine == ReplicaMn(cfg, PrimaryMn(cfg, hash), repl)
  {
    ReplicasDistinct(cfg, PrimaryMn(cfg, hash));
    var n, m := cfg.workersPerMachine, ReplicaMn(cfg, PrimaryMn(cfg, hash), repl);
    var k := hash / 0x10_0000 % n;
    Modular.MultipleOf(cfg.Primaries() - m, n);
    assert (cfg.Primaries() - m) * n == cfg.Primaries() * n - m * n;
    assert 0 <= m * n;
    Modular.Unique(n, m * n + k, m, k);
  }

  // Message sizes, in bytes.

  const HEADER: nat := 4
  const GET_REQ: nat := 24
  const OBJ_HDR: nat := 8

  function PutReq(valSize: nat): nat { 24 + valSize }

  function LogRecord(valSizes: seq<nat>): nat {
    if valSizes == [] then 8 else LogRecord(valSizes[..|valSizes| - 1]) + 8 + 16 + valSizes[|valSizes| - 1]
  }

  function MaxPktSize(keys: nat, valSize: nat): nat {
    var puts, log := keys * (HEADER + PutReq(valSize)), 8 + HEADER + keys * (24 + valSize);
    if puts > log then puts else log
  }

  /** A request or response of a batch: the machine it goes to or comes from, and its size. */
  datatype Item = Item(mn: int, size: nat)

  /** The coalesced message of a batch for one machine. */
  function Bytes(items: seq<Item>, mn: int): nat {
    if items == [] then 0
    else Bytes(items[..|items| - 1], mn) + (if items[|items| - 1].mn == mn then HEADER + items[|items| - 1].size else 0)
  }

  lemma {:induction false} BytesConcat(a: seq<Item>, b: seq<Item>, mn: int)
    ensures Bytes(a + b, mn) == Bytes(a, mn) + Bytes(b, mn)
  {
    if b == [] {
      assert a + b == a;
    } else {
      BytesConcat(a, b[..|b| - 1], mn);
      assert (a + b)[..|a + b| - 1] == a + b[..|b| - 1];
    }
  }

  lemma {:induction false} BytesBound(items: seq<Item>, mn: int, size: nat)
    requires forall i :: 0 <= i < |items| ==> items[i].size <= size
    ensures Bytes(items, mn) <= |items| * (HEADER + size)
  {
    if items != [] {
      BytesBound(items[..|items| - 1], mn, size);
      assert |items| * (HEADER + size) == (|items| - 1) * (HEADER + size) + (HEADER + size);
    }
  }

  /** A key of the write set: its primary, and the size of its update request. */
  datatype Write = Write(primary: nat, size: nat)

  /** send_updates_to_replicas: for each replica number, one request per key. */
  function Updates(cfg: Config, repls: seq<nat>, ws: seq<Write>): (items: seq<Item>)
    ensures |items| == |repls| * |ws|
  {
    if repls == [] then []
    else
      assert |repls| * |ws| == (|repls| - 1) * |ws| + |ws|;
      Updates(cfg, repls[..|repls| - 1], ws) + Row(cfg, repls[|repls| - 1], ws)
  }

  function Row(cfg: Config, repl: nat, ws: seq<Write>): (items: seq<Item>)
    ensures |items| == |ws|
    ensures forall i :: 0 <= i < |ws| ==> items[i] == Item(ReplicaMn(cfg, ws[i].primary, repl), ws[i].size)
  {
    seq(|ws|, i requires 0 <= i < |ws| => Item(ReplicaMn(cfg, ws[i].primary, repl), ws[i].size))
  }

  lemma UpdatesOfLast(cfg: Config, repls: seq<nat>, ws: seq<Write>, mn: int)
    requires repls != []
    ensures Bytes(Updates(cfg, repls, ws), mn) ==
            Bytes(Updates(cfg, repls[..|repls| - 1], ws), mn) + Bytes(Row(cfg, repls[|repls| - 1], ws), mn)
  {
    hide Bytes, Row;
    BytesConcat(Updates(cfg, repls[..|repls| - 1], ws), Row(cfg, repls[|repls| - 1], ws), mn);
  }

  lemma RowByKey(cfg: Config, repl: nat, ws: seq<Write>, mn: int)
    requires ws != []
    ensures Bytes(Row(cfg, repl, ws), mn) ==
            Bytes(Row(cfg, repl, ws[..|ws| - 1]), mn) + Bytes(Row(cfg, repl, [ws[|ws| - 1]]), mn)
  {
    hide Bytes;
    var init, last := ws[..|ws| - 1], [ws[|ws| - 1]];
    BytesConcat(Row(cfg, repl, init), Row(cfg, repl, last), mn);
    assert Row(cfg, repl, ws) == Row(cfg, repl, init) + Row(cfg, repl, last);
  }

  /** The same requests, gathered key by key. */
  lemma {:induction false} UpdatesByKey(cfg: Config, repls: seq<nat>, ws: seq<Write>, mn: int)
    requires ws != []
    ensures Bytes(Updates(cfg, repls, ws), mn) ==
            Bytes(Updates(cfg, repls, ws[..|ws| - 1]), mn) + Bytes(Updates(cfg, repls, [ws[|ws| - 1]]), mn)
  {
    hide Row;
    if repls != [] {
      hide Bytes, Updates;
      UpdatesByKey(cfg, repls[..|repls| - 1], ws, mn);
      UpdatesOfLast(cfg, repls, ws, mn);
      UpdatesOfLast(cfg, repls, ws[..|ws| - 1], mn);
      UpdatesOfLast(cfg, repls, [ws[|ws| - 1]], mn);
      RowByKey(cfg, repls[|repls| - 1], ws, mn);
    }
  }

  /** The replicas of one update batch: some of the backups, or the primary alone. */
  predicate BatchRepls(cfg: Config, repls: seq<nat>) {
    && (forall i :: 0 <= i < |repls| ==> repls[i] < cfg.Replicas())
    && (forall i, j :: 0 <= i < j < |repls| ==> 1 <= repls[i] < repls[j])
  }

  /** One key sends at most one of a batch's updates to a machine. */
  lemma {:induction false} OnePerKey(cfg: Config, repls: seq<nat>, w: Write, mn: int)
    requires cfg.Accepted() && w.primary < cfg.Primaries() && BatchRepls(cfg, repls)
    ensures Bytes(Updates(cfg, repls, [w]), mn) <= HEADER + w.size
    ensures (forall i :: 0 <= i < |repls| ==> ReplicaMn(cfg, w.primary, repls[i]) != mn) ==>
              Bytes(Updates(cfg, repls, [w]), mn) == 0
  {
    if repls != [] {
      var rest, last := repls[..|repls| - 1], repls[|repls| - 1];
      OnePerKey(cfg, rest, w, mn);
      BackupsDistinct(cfg, w.primary);
      BytesConcat(Updates(cfg, rest, [w]), Row(cfg, last, [w]), mn);
      var row := Row(cfg, last, [w]);
      assert row[..0] == [] && Bytes(row[..0], mn) == 0;
      assert Bytes(row, mn) == if ReplicaMn(cfg, w.primary, last) == mn then HEADER + w.size else 0;
    }
  }

  /** However the replicas of the keys overlap, a machine gets at most one update per key. */
  lemma {:induction false} UpdateBound(cfg: Config, repls: seq<nat>, ws: seq<Write>, mn: int, valSize: nat)
    requires cfg.Accepted() && BatchRepls(cfg, repls)
    requires forall i :: 0 <= i < |ws| ==> ws[i].primary < cfg.Primaries() && ws[i].size <= PutReq(valSize)
    ensures Bytes(Updates(cfg, repls, ws), mn) <= |ws| * (HEADER + PutReq(valSize))
  {
    if ws == [] {
      assert Updates(cfg, repls, ws) == [];
    } else {
      UpdateBound(cfg, repls, ws[..|ws| - 1], mn, valSize);
      UpdatesByKey(cfg, repls, ws, mn);
      OnePerKey(cfg, repls, ws[|ws| - 1], mn);
      assert |ws| * (HEADER + PutReq(valSize)) == (|ws| - 1) * (HEADER + PutReq(valSize)) + (HEADER + PutReq(valSize));
    }
  }

  /** A record grows by 24 bytes and the value for every key. */
  lemma {:induction false} LogRecordBound(sizes: seq<nat>, valSize: nat)
    requires forall i :: 0 <= i < |sizes| ==> sizes[i] <= valSize
    ensures LogRecord(sizes) <= 8 + |sizes| * (24 + valSize)
    ensures (forall i :: 0 <= i < |sizes| ==> sizes[i] == valSize) ==> LogRecord(sizes) == 8 + |sizes| * (24 + valSize)
  {
    if sizes != [] {
      LogRecordBound(sizes[..|sizes| - 1], valSize);
      assert |sizes| * (24 + valSize) == (|sizes| - 1) * (24 + valSize) + (24 + valSize);
    }
  }

  /** A key of a transaction: the machine of its primary, and its value's size. */
  datatype TxKey = TxKey(primary: nat, valSize: nat)

  /** One request per key to its primary. */
  function ToPrimaries(keys: seq<TxKey>, size: TxKey -> nat): (items: seq<Item>)
    ensures |items| == |keys|
    ensures forall i :: 0 <= i < |keys| ==> items[i] == Item(keys[i].primary, size(keys[i]))
  {
    seq(|keys|, i requires 0 <= i < |keys| => Item(keys[i].primary, size(keys[i])))
  }

  function Sizes(keys: seq<TxKey>): (ss: seq<nat>)
    ensures |ss| == |keys| && forall i :: 0 <= i < |keys| ==> ss[i] == keys[i].valSize
  {
    seq(|keys|, i requires 0 <= i < |keys| => keys[i].valSize)
  }

  function Writes(keys: seq<TxKey>): (ws: seq<Write>)
    ensures |ws| == |keys|
    ensures forall i :: 0 <= i < |keys| ==> ws[i] == Write(keys[i].primary, PutReq(keys[i].valSize))
  {
    seq(|keys|, i requires 0 <= i < |keys| => Write(keys[i].primary, PutReq(keys[i].valSize)))
  }

  predicate KeysOk(cfg: Config, keys: seq<TxKey>, valSize: nat) {
    forall i :: 0 <= i < |keys| ==> keys[i].primary < cfg.Primaries() && keys[i].valSize <= valSize
  }

  /** The replica numbers of the backups, in order. */
  function BackupRepls(cfg: Config): (rs: seq<nat>)
    ensures |rs| == cfg.backups && forall i :: 0 <= i < |rs| ==> rs[i] == i + 1
  {
    seq(cfg.backups, i requires 0 <= i < cfg.backups => i + 1)
  }

  /** The log batch: one record for each backup of the coordinator's own machine. */
  function LogBatch(cfg: Config, me: nat, writes: seq<TxKey>): seq<Item> {
    Updates(cfg, BackupRepls(cfg), [Write(me, LogRecord(Sizes(writes)))])
  }

  /** Each log replica gets one record. */
  lemma LogBound(cfg: Config, me: nat, writes: seq<TxKey>, mn: int, valSize: nat)
    requires cfg.Accepted() && me < cfg.Primaries() && KeysOk(cfg, writes, valSize)
    ensures |LogBatch(cfg, me, writes)| == cfg.backups
    ensures Bytes(LogBatch(cfg, me, writes), mn) <= HEADER + 8 + |writes| * (24 + valSize)
    ensures cfg.backups == 0 ==> Bytes(LogBatch(cfg, me, writes), mn) == 0
  {
    LogRecordBound(Sizes(writes), valSize);
    OnePerKey(cfg, BackupRepls(cfg), Write(me, LogRecord(Sizes(writes))), mn);
  }

  function GetReqSize(k: TxKey): nat { GET_REQ }
  function GetRespSize(k: TxKey): nat { OBJ_HDR + k.valSize }

  /** The coalesced messages between a coordinator on machine me and machine mn: reading and
      locking, validation, the log record if anything is written, and an update batch. */
  predicate MessagesFit(cfg: Config, me: nat, readSet: seq<TxKey>, writeSet: seq<TxKey>, repls: seq<nat>, mn: int,
                        pkt: nat)
  {
    && Bytes(ToPrimaries(readSet + writeSet, GetReqSize), mn) <= pkt
    && Bytes(ToPrimaries(readSet + writeSet, GetRespSize), mn) <= pkt
    && Bytes(ToPrimaries(readSet, GetReqSize), mn) <= pkt
    && Bytes(ToPrimaries(readSet, GetRespSize), mn) <= pkt
    && (writeSet != [] ==> Bytes(LogBatch(cfg, me, writeSet), mn) <= pkt)
    && Bytes(Updates(cfg, repls, Writes(writeSet)), mn) <= pkt
  }

  /** A transaction of r reads and w writes, and one of its update batches. */
  predicate Possible(cfg: Config, me: nat, readSet: seq<TxKey>, writeSet: seq<TxKey>, repls: seq<nat>,
                     r: nat, w: nat, valSize: nat)
  {
    && me < cfg.Primaries() && |readSet| == r && |writeSet| == w
    && KeysOk(cfg, readSet, valSize) && KeysOk(cfg, writeSet, valSize) && BatchRepls(cfg, repls)
  }

  /** Wherever the keys live, every message of r reads and w writes fits. */
  ghost predicate AllFit(cfg: Config, r: nat, w: nat, valSize: nat, pkt: nat) {
    forall me, readSet, writeSet, repls, mn :: Possible(cfg, me, readSet, writeSet, repls, r, w, valSize) ==>
      MessagesFit(cfg, me, readSet, writeSet, repls, mn, pkt)
  }

  function Max(a: nat, b: nat): nat { if a > b then a else b }

  /** The largest message of reading and locking: a request or an answer per key. */
  function ReadBytes(keys: nat, valSize: nat): nat { keys * (HEADER + Max(GET_REQ, OBJ_HDR + valSize)) }
  function UpdateBytes(w: nat, valSize: nat): nat { w * (HEADER + PutReq(valSize)) }
  function LogBytes(w: nat, valSize: nat): nat { HEADER + 8 + w * (24 + valSize) }

  predicate Enough(cfg: Config, r: nat, w: nat, valSize: nat, pkt: nat) {
    && ReadBytes(r + w, valSize) <= pkt && UpdateBytes(w, valSize) <= pkt
    && (cfg.backups > 0 && w > 0 ==> LogBytes(w, valSize) <= pkt)
  }

  lemma Monotone(m: nat, n: nat, k: nat, l: nat)
    requires m <= n && k <= l
    ensures m * k <= n * l
  {
    assert m * k <= n * k <= n * l;
  }

  lemma ReadsBound(keys: seq<TxKey>, mn: int, valSize: nat, most: nat)
    requires (forall i :: 0 <= i < |keys| ==> keys[i].valSize <= valSize) && |keys| <= most
    ensures Bytes(ToPrimaries(keys, GetReqSize), mn) <= ReadBytes(most, valSize)
    ensures Bytes(ToPrimaries(keys, GetRespSize), mn) <= ReadBytes(most, valSize)
  {
    var size := Max(GET_REQ, OBJ_HDR + valSize);
    BytesBound(ToPrimaries(keys, GetReqSize), mn, size);
    BytesBound(ToPrimaries(keys, GetRespSize), mn, size);
    Monotone(|keys|, most, HEADER + size, HEADER + size);
  }

  lemma EnoughFits(cfg: Config, me: nat, readSet: seq<TxKey>, writeSet: seq<TxKey>, repls: seq<nat>, mn: int,
                   valSize: nat, pkt: nat)
    requires cfg.Accepted() && Enough(cfg, |readSet|, |writeSet|, valSize, pkt)
    requires Possible(cfg, me, readSet, writeSet, repls, |readSet|, |writeSet|, valSize)
    ensures MessagesFit(cfg, me, readSet, writeSet, repls, mn, pkt)
  {
    hide Bytes, Updates, ReadBytes;
    ReadsBound(readSet + writeSet, mn, valSize, |readSet| + |writeSet|);
    ReadsBound(readSet, mn, valSize, |readSet| + |writeSet|);
    LogBound(cfg, me, writeSet, mn, valSize);
    UpdateBound(cfg, repls, Writes(writeSet), mn, valSize);
  }

  /** All keys on machine 0, all values of full size. */
  function Worst(n: nat, valSize: nat): (keys: seq<TxKey>)
    ensures |keys| == n && forall i :: 0 <= i < n ==> keys[i] == TxKey(0, valSize)
  {
    seq(n, _ => TxKey(0, valSize))
  }

  lemma {:induction false} AllToOne(items: seq<Item>, mn: int, size: nat)
    requires forall i :: 0 <= i < |items| ==> items[i] == Item(mn, size)
    ensures Bytes(items, mn) == |items| * (HEADER + size)
  {
    if items != [] {
      AllToOne(items[..|items| - 1], mn, size);
      assert |items| * (HEADER + size) == (|items| - 1) * (HEADER + size) + (HEADER + size);
    }
  }

  /** One batch to one replica: every key of machine 0 sends to the same machine. */
  lemma OneRow(cfg: Config, repl: nat, ws: seq<Write>, size: nat)
    requires forall i :: 0 <= i < |ws| ==> ws[i] == Write(0, size)
    ensures Bytes(Updates(cfg, [repl], ws), ReplicaMn(cfg, 0, repl)) == |ws| * (HEADER + size)
  {
    var none: seq<nat> := [];
    assert [repl][..0] == none && Updates(cfg, none, ws) == [];
    assert Updates(cfg, [repl], ws) == Updates(cfg, none, ws) + Row(cfg, repl, ws) == Row(cfg, repl, ws);
    AllToOne(Row(cfg, repl, ws), ReplicaMn(cfg, 0, repl), size);
  }

  lemma WorstReads(r: nat, w: nat, valSize: nat)
    ensures Max(Bytes(ToPrimaries(Worst(r, valSize) + Worst(w, valSize), GetReqSize), 0),
                Bytes(ToPrimaries(Worst(r, valSize) + Worst(w, valSize), GetRespSize), 0)) == ReadBytes(r + w, valSize)
  {
    var all := Worst(r, valSize) + Worst(w, valSize);
    AllToOne(ToPrimaries(all, GetReqSize), 0, GET_REQ);
    AllToOne(ToPrimaries(all, GetRespSize), 0, OBJ_HDR + valSize);
    Monotone(r + w, r + w, HEADER + GET_REQ, HEADER + Max(GET_REQ, OBJ_HDR + valSize));
    Monotone(r + w, r + w, HEADER + OBJ_HDR + valSize, HEADER + Max(GET_REQ, OBJ_HDR + valSize));
  }

  /** The record that goes to the first log replica of machine 0. */
  lemma WorstLog(cfg: Config, w: nat, valSize: nat)
    requires cfg.Accepted() && cfg.backups > 0
    ensures Bytes(LogBatch(cfg, 0, Worst(w, valSize)), ReplicaMn(cfg, 0, 1)) >= LogBytes(w, valSize)
  {
    var size := LogRecord(Sizes(Worst(w, valSize)));
    LogRecordBound(Sizes(Worst(w, valSize)), valSize);
    var rec, mn := [Write(0, size)], ReplicaMn(cfg, 0, 1);
    OneRow(cfg, 1, rec, size);
    FirstReplica(cfg, BackupRepls(cfg), rec, mn);
  }

  /** More replicas in a batch mean no less for a machine. */
  lemma {:induction false} FirstReplica(cfg: Config, repls: seq<nat>, ws: seq<Write>, mn: int)
    requires repls != []
    ensures Bytes(Updates(cfg, repls, ws), mn) >= Bytes(Updates(cfg, [repls[0]], ws), mn)
  {
    if |repls| == 1 {
      assert repls == [repls[0]];
    } else {
      var rest := repls[..|repls| - 1];
      FirstReplica(cfg, rest, ws, mn);
      BytesConcat(Updates(cfg, rest, ws), Row(cfg, repls[|repls| - 1], ws), mn);
    }
  }

  lemma WorstNeedsEnough(cfg: Config, r: nat, w: nat, valSize: nat, pkt: nat)
    requires cfg.Accepted() && AllFit(cfg, r, w, valSize, pkt)
    ensures Enough(cfg, r, w, valSize, pkt)
  {
    var readSet, writeSet := Worst(r, valSize), Worst(w, valSize);
    hide Bytes, Updates, ReadBytes;
    assert Possible(cfg, 0, readSet, writeSet, [0], r, w, valSize);
    assert MessagesFit(cfg, 0, readSet, writeSet, [0], 0, pkt);
    WorstReads(r, w, valSize);
    OneRow(cfg, 0, Writes(writeSet), PutReq(valSize));
    if cfg.backups > 0 && w > 0 {
      assert MessagesFit(cfg, 0, readSet, writeSet, [0], ReplicaMn(cfg, 0, 1), pkt);
      WorstLog(cfg, w, valSize);
    }
  }

  /** The exact packet size: every message of every placement of r reads and w writes fits if
      and only if the reads and locks of one machine, the updates of one machine and, with
      backups, the log record do. */
  lemma FitsExactly(cfg: Config, r: nat, w: nat, valSize: nat, pkt: nat)
    requires cfg.Accepted()
    ensures AllFit(cfg, r, w, valSize, pkt) <==> Enough(cfg, r, w, valSize, pkt)
  {
    hide MessagesFit, Enough, Possible;
    if Enough(cfg, r, w, valSize, pkt) {
      forall me, readSet, writeSet, repls, mn | Possible(cfg, me, readSet, writeSet, repls, r, w, valSize)
        ensures MessagesFit(cfg, me, readSet, writeSet, repls, mn, pkt)
      {
        PossibleSizes(cfg, me, readSet, writeSet, repls, r, w, valSize);
        EnoughFits(cfg, me, readSet, writeSet, repls, mn, valSize, pkt);
      }
    }
    if AllFit(cfg, r, w, valSize, pkt) { WorstNeedsEnough(cfg, r, w, valSize, pkt); }
  }

  lemma PossibleSizes(cfg: Config, me: nat, readSet: seq<TxKey>, writeSet: seq<TxKey>, repls: seq<nat>,
                      r: nat, w: nat, valSize: nat)
    requires Possible(cfg, me, readSet, writeSet, repls, r, w, valSize)
    ensures |readSet| == r && |writeSet| == w
  {
  }

  /** `max_pkt_size` given at least the number of updated keys: the updates and the log fit,
      and all messages fit if and only if the reads and locks of one machine do. */
  lemma PacketSizeExactly(cfg: Config, r: nat, w: nat, keys: nat, valSize: nat)
    requires cfg.Accepted() && w <= keys
    ensures AllFit(cfg, r, w, valSize, MaxPktSize(keys, valSize))
            <==> ReadBytes(r + w, valSize) <= MaxPktSize(keys, valSize)
  {
    FitsExactly(cfg, r, w, valSize, MaxPktSize(keys, valSize));
    Monotone(w, keys, HEADER + PutReq(valSize), HEADER + PutReq(valSize));
    Monotone(w, keys, 24 + valSize, 24 + valSize);
    hide AllFit, ReadBytes;
  }

  /** Given the number of keys read and written, everything fits. */
  lemma TransactionFits(cfg: Config, r: nat, w: nat, keys: nat, valSize: nat)
    requires cfg.Accepted() && r + w <= keys
    ensures AllFit(cfg, r, w, valSize, MaxPktSize(keys, valSize))
  {
    PacketSizeExactly(cfg, r, w, keys, valSize);
    Monotone(r + w, keys, HEADER + Max(GET_REQ, OBJ_HDR + valSize), HEADER + PutReq(valSize));
    hide AllFit;
  }

  /** The batches of a commit: all backups at once if that is few enough requests, else one
      replica at a time; the primary last. None exceeds the limit of a batch. */
  lemma BatchesWithinLimit(cfg: Config, ws: seq<Write>)
    requires cfg.Accepted() && |ws| <= MAX_MSG_CORO
    ensures |ws| * cfg.backups <= MAX_MSG_CORO ==> |Updates(cfg, BackupRepls(cfg), ws)| <= MAX_MSG_CORO
    ensures forall repl :: 0 <= repl < cfg.Replicas() ==> |Updates(cfg, [repl], ws)| <= MAX_MSG_CORO
  {
    assert |ws| * cfg.backups == cfg.backups * |ws|;
  }
}
