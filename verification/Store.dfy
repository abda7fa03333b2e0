/** The key-value store behind the transactions: a hash table whose buckets carry a
    re-entrant lock and a version that grows each time the bucket is released. */
module Store {

  datatype Option<+T> = None | Some(value: T)

  /** An application-level value buffer. The store copies it and never looks inside. */
  type Value(==, !new)

  /** A key together with the bucket its hash selects. The bucket number stands for the
      table, the primary machine and the bucket index, so keys of this shape cover
      every hash function. */
  datatype Key = Key(bucket: nat, id: nat)

  type Caller = nat

  /** The lock of one bucket: `version` is the 60-bit header field, the holder is the
      caller that locked the bucket, `count` how many times it did. */
  datatype Lock = Lock(version: nat, holder: Option<Caller>, count: nat)

  datatype Table = Table(data: map<Key, Value>, locks: map<nat, Lock>)

  datatype Request =
    | GetRdonly(key: Key)
    | GetForUpd(key: Key)
    | LockForIns(key: Key)
    | Unlock(key: Key)
    | Del(key: Key)
    | Put(key: Key, value: Value)

  /** `Fatal` stands for a failed assertion or the `exit(-1)` of the handler. */
  datatype Response =
    | RdSuccess(value: Value, version: nat)
    | RdNotFound(version: nat)
    | RdLocked
    | UpdSuccess(value: Value)
    | UpdNotFound
    | UpdLocked
    | InsSuccess
    | InsExists
    | InsLocked
    | UnlockSuccess
    | PutSuccess
    | DelSuccess
    | Fatal

  function Find(data: map<Key, Value>, k: Key): Option<Value> {
    if k in data then Some(data[k]) else None
  }

  /** Writing `Some(v)` stores v, writing `None` deletes. */
  function Write(data: map<Key, Value>, k: Key, v: Option<Value>): map<Key, Value> {
    match v
    case Some(x) => data[k := x]
    case None => data - {k}
  }

  function LockOf(t: Table, b: nat): Lock {
    if b in t.locks then t.locks[b] else Lock(0, None, 0)
  }

  function Version(t: Table, b: nat): nat { LockOf(t, b).version }

  predicate HeldBy(t: Table, c: Caller, b: nat) { LockOf(t, b).holder == Some(c) }

  predicate HeldByOther(t: Table, c: Caller, b: nat) {
    LockOf(t, b).holder.Some? && LockOf(t, b).holder != Some(c)
  }

  /** The number of holds caller c has on bucket b. */
  function Holds(t: Table, c: Caller, b: nat): nat {
    if HeldBy(t, c, b) then LockOf(t, b).count else 0
  }

  /** Every bucket is either free with no holds or held at least once. */
  ghost predicate ValidTable(t: Table) {
    forall b: nat :: LockOf(t, b).holder.Some? <==> LockOf(t, b).count > 0
  }

  function Acquire(t: Table, c: Caller, b: nat): Table {
    t.(locks := t.locks[b := Lock(Version(t, b), Some(c), Holds(t, c, b) + 1)])
  }

  /** Gives back one hold; the version grows when the last one goes. */
  function Release(t: Table, c: Caller, b: nat): Table {
    var l := LockOf(t, b);
    if l.count <= 1
    then t.(locks := t.locks[b := Lock(l.version + 1, None, 0)])
    else t.(locks := t.locks[b := Lock(l.version, Some(c), (l.count - 1) as nat)])
  }

  /** One request of caller c at the primary. `junk` is what the response buffer held
      before: a lookup by the lock holder that finds nothing leaves the header unset. */
  function Serve(t: Table, c: Caller, req: Request, junk: nat): (Table, Response) {
    var b := req.key.bucket;
    match req
    case GetRdonly(k) =>
      (t,
       if HeldByOther(t, c, b) then RdLocked
       else if k in t.data then RdSuccess(t.data[k], Version(t, b))
       else if HeldBy(t, c, b) then RdNotFound(junk)
       else RdNotFound(Version(t, b)))
    case GetForUpd(k) =>
      if HeldByOther(t, c, b) then (t, UpdLocked)
      else if k in t.data then (Acquire(t, c, b), UpdSuccess(t.data[k]))
      else (Release(Acquire(t, c, b), c, b), UpdNotFound)
    case LockForIns(k) =>
      if HeldByOther(t, c, b) then (t, InsLocked)
      else if k !in t.data then (Acquire(t, c, b), InsSuccess)
      else (Release(Acquire(t, c, b), c, b), InsExists)
    case Unlock(_) =>
      if HeldBy(t, c, b) then (Release(t, c, b), UnlockSuccess) else (t, Fatal)
    case Del(k) =>
      if HeldBy(t, c, b) && k in t.data
      then (Release(t.(data := Write(t.data, k, None)), c, b), DelSuccess)
      else (t, Fatal)
    case Put(k, v) =>
      if HeldBy(t, c, b)
      then (Release(t.(data := Write(t.data, k, Some(v))), c, b), PutSuccess)
      else (t, Fatal)
  }

  /** One update at a backup, where no bucket lock is looked at. */
  function ServeBackup(data: map<Key, Value>, req: Request): (map<Key, Value>, Response) {
    match req
    case Put(k, v) => (Write(data, k, Some(v)), PutSuccess)
    case Del(k) => if k in data then (Write(data, k, None), DelSuccess) else (data, Fatal)
    case _ => (data, Fatal)
  }
}
