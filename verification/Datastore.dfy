/** The server side of every transaction step: bucket headers changed in place by the table
    operations, and the handler that dispatches to them. */
module Datastore {
  import opened Store

  const INVALID_CALLER: nat := 0x7ff_ffff
  const MAX_NUM_LOCKS: nat := 31
  const HDR_SIZE: nat := 8

  /** A bucket header. The lowest bit of the timestamp says "locked". */
  datatype Header = Header(lockerId: nat, numLocks: nat, timestamp: nat) {
    predicate Locked() { timestamp % 2 == 1 }
    predicate Valid() { (Locked() <==> lockerId != INVALID_CALLER) && (Locked() <==> numLocks > 0) }
    function Abs(): Lock {
      Lock(timestamp / 2, if lockerId == INVALID_CALLER then None else Some(lockerId), numLocks)
    }
  }

  function ResponseLength(resp: Response, valSize: nat): nat {
    match resp
    case RdSuccess(_, _) => HDR_SIZE + valSize
    case RdNotFound(_) => HDR_SIZE
    case UpdSuccess(_) => HDR_SIZE + valSize
    case InsSuccess => HDR_SIZE
    case _ => 0
  }

  class FixedTable {
    var data: map<Key, Value>
    const headers: array<Header>
    const valSize: nat

    ghost predicate Valid()
      reads this, headers
    {
      && (forall b :: 0 <= b < headers.Length ==> headers[b].Valid())
      && (forall k :: k in data ==> k.bucket < headers.Length)
    }

    ghost function Abs(): Table
      reads this, headers
    {
      Table(data, map b | 0 <= b < headers.Length :: headers[b].Abs())
    }

    constructor (buckets: nat, valSize: nat)
      ensures Valid() && fresh(headers) && headers.Length == buckets && this.valSize == valSize
      ensures data == map[] && forall b: nat :: LockOf(Abs(), b) == Lock(0, None, 0)
    {
      data := map[];
      headers := new Header[buckets](_ => Header(INVALID_CALLER, 0, 0));
      this.valSize := valSize;
    }

    /** lock_bucket_ptr: take the bucket if it is free, or once more if the caller has it. */
    method LockBucket(c: Caller, b: nat) returns (ok: bool)
      requires Valid() && b < headers.Length && c != INVALID_CALLER
      requires Holds(Abs(), c, b) < MAX_NUM_LOCKS
      modifies headers
      ensures Valid()
      ensures ok <==> !HeldByOther(old(Abs()), c, b)
      ensures Abs() == if ok then Acquire(old(Abs()), c, b) else old(Abs())
    {
      var h := headers[b];
      if !h.Locked() {
        headers[b] := Header(c, 1, h.timestamp + 1);
        ok := true;
      } else if h.lockerId == c {
        headers[b] := h.(numLocks := h.numLocks + 1);
        ok := true;
      } else {
        ok := false;
      }
      assert h == old(headers[b]) && LockOf(old(Abs()), b) == h.Abs();
      assert Abs().locks == if ok then Acquire(old(Abs()), c, b).locks else old(Abs()).locks;
    }

    /** unlock_bucket_ptr: give one hold back. */
    method UnlockBucket(c: Caller, b: nat)
      requires Valid() && b < headers.Length && c != INVALID_CALLER
      requires HeldBy(Abs(), c, b)
      modifies headers
      ensures Valid() && Abs() == Release(old(Abs()), c, b)
    {
      var h := headers[b];
      assert LockOf(Abs(), b) == h.Abs();
      if h.numLocks == 1 {
        headers[b] := Header(INVALID_CALLER, 0, h.timestamp + 1);
      } else {
        headers[b] := h.(numLocks := h.numLocks - 1);
      }
      assert Abs().locks == Release(old(Abs()), c, b).locks;
    }

    /** get: reads only; under the caller's own lock a miss leaves the header unset. */
    method Get(c: Caller, k: Key, junk: nat) returns (resp: Response)
      requires Valid() && k.bucket < headers.Length && c != INVALID_CALLER
      ensures resp == Serve(Abs(), c, GetRdonly(k), junk).1
    {
      var h := headers[k.bucket];
      assert LockOf(Abs(), k.bucket) == h.Abs();
      if !h.Locked() {
        resp := if k in data then RdSuccess(data[k], h.timestamp / 2) else RdNotFound(h.timestamp / 2);
      } else if h.lockerId == c {
        resp := if k in data then RdSuccess(data[k], h.timestamp / 2) else RdNotFound(junk);
      } else {
        resp := RdLocked;
      }
    }

    /** lock_bkt_and_get and lock_bkt_for_ins: lock first, look, and unlock on failure. */
    method LockAnd(c: Caller, k: Key, insert: bool) returns (resp: Response)
      requires Valid() && k.bucket < headers.Length && c != INVALID_CALLER
      requires Holds(Abs(), c, k.bucket) < MAX_NUM_LOCKS
      modifies this, headers
      ensures Valid()
      ensures (Abs(), resp) == Serve(old(Abs()), c, if insert then LockForIns(k) else GetForUpd(k), 0)
    {
      var ok := LockBucket(c, k.bucket);
      if !ok {
        resp := if insert then InsLocked else UpdLocked;
      } else if insert {
        if k !in data {
          resp := InsSuccess;
        } else {
          assert HeldBy(Abs(), c, k.bucket);
          UnlockBucket(c, k.bucket);
          resp := InsExists;
        }
      } else {
        if k in data {
          resp := UpdSuccess(data[k]);
        } else {
          assert HeldBy(Abs(), c, k.bucket);
          UnlockBucket(c, k.bucket);
          resp := UpdNotFound;
        }
      }
    }

    /** ds_fixedtable_rpc_handler at a primary. A failed assertion shows as `Fatal`. */
    method Handle(c: Caller, req: Request, junk: nat) returns (resp: Response, len: nat)
      requires Valid() && req.key.bucket < headers.Length && c != INVALID_CALLER
      requires Holds(Abs(), c, req.key.bucket) < MAX_NUM_LOCKS
      modifies this, headers
      ensures Valid()
      ensures (Abs(), resp) == Serve(old(Abs()), c, req, junk)
      ensures len == ResponseLength(resp, valSize)
    {
      var k := req.key;
      var h := headers[k.bucket];
      assert LockOf(Abs(), k.bucket) == h.Abs();
      var mine := h.Locked() && h.lockerId == c;
      match req {
        case GetRdonly(_) => resp := Get(c, k, junk);
        case GetForUpd(_) => resp := LockAnd(c, k, false);
        case LockForIns(_) => resp := LockAnd(c, k, true);
        case Unlock(_) =>
          if mine { UnlockBucket(c, k.bucket); resp := UnlockSuccess; } else { resp := Fatal; }
        case Del(_) =>
          if mine && k in data {
            data := data - {k};
            assert Abs() == old(Abs()).(data := Write(old(data), k, None));
            assert HeldBy(Abs(), c, k.bucket);
            UnlockBucket(c, k.bucket);
            resp := DelSuccess;
          } else {
            resp := Fatal;
          }
        case Put(_, v) =>
          if mine {
            data := data[k := v];
            assert Abs() == old(Abs()).(data := Write(old(data), k, Some(v)));
            assert HeldBy(Abs(), c, k.bucket);
            UnlockBucket(c, k.bucket);
            resp := PutSuccess;
          } else {
            resp := Fatal;
          }
      }
      len := ResponseLength(resp, valSize);
    }

    /** The handler at a backup: updates go in without a look at the bucket's lock. */
    method HandleBackup(req: Request) returns (resp: Response)
      requires Valid() && req.key.bucket < headers.Length
      modifies this`data
      ensures Valid()
      ensures (data, resp) == ServeBackup(old(data), req)
    {
      match req {
        case Put(k, v) =>
          data := data[k := v];
          resp := PutSuccess;
        case Del(k) =>
          if k in data {
            data := data - {k};
            resp := DelSuccess;
          } else {
            resp := Fatal;
          }
        case _ => resp := Fatal;
      }
    }
  }
}
