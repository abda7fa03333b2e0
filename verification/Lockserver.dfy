/** The lock server: re-entrant shared and exclusive locks, requested several at a time, all
    or nothing. */
module Lockserver {

  datatype Mode = Unlocked | Exclusive | Shared

  /** `owner` means something only in exclusive mode. */
  datatype Lock = Lock(mode: Mode, counter: nat, owner: nat)

  /** One key of a request; the hash fragment already reduced to a lock index. */
  datatype Want = Want(exclusive: bool, lock: nat)

  predicate Grants(l: Lock, r: nat, exclusive: bool) {
    match l.mode
    case Unlocked => true
    case Shared => !exclusive
    case Exclusive => l.owner == r
  }

  /** A granted lock. A shared request on a lock held exclusively by the same requester
      leaves it exclusive. */
  function Granted(l: Lock, r: nat, exclusive: bool): Lock
    requires Grants(l, r, exclusive)
  {
    match l.mode
    case Unlocked => if exclusive then Lock(Exclusive, l.counter + 1, r)
         else l.(mode := Shared, counter := l.counter + 1)
    case Shared => l.(counter := l.counter + 1)
    case Exclusive => l.(counter := l.counter + 1)
  }

  function Released(l: Lock): Lock
    requires l.counter > 0
  {
    Lock(if l.counter == 1 then Unlocked else l.mode, l.counter - 1, l.owner)
  }

  predicate LockOk(l: Lock) {
    l.mode.Unlocked? <==> l.counter == 0
  }

  /** Equal but for the owner field of a lock that is not held exclusively. */
  predicate Same(a: Lock, b: Lock) {
    a.mode == b.mode && a.counter == b.counter && (a.mode.Exclusive? ==> a.owner == b.owner)
  }

  predicate AllOk(ls: seq<Lock>) {
    forall i :: 0 <= i < |ls| ==> LockOk(ls[i])
  }

  predicate AllSame(a: seq<Lock>, b: seq<Lock>) {
    |a| == |b| && forall i :: 0 <= i < |a| ==> Same(a[i], b[i])
  }

  predicate InRange(ls: seq<Lock>, ws: seq<Want>) {
    forall i :: 0 <= i < |ws| ==> ws[i].lock < |ls|
  }

  // The handler on its own, one request at a time.

  /** Whether the first n locks can be taken in turn, and the table when they are. */
  predicate CanTake(ls: seq<Lock>, r: nat, ws: seq<Want>, n: nat)
    requires InRange(ls, ws) && n <= |ws|
    decreases n, 0
  {
    n == 0 || (CanTake(ls, r, ws, n - 1) && Grants(Take(ls, r, ws, n - 1)[ws[n - 1].lock], r, ws[n - 1].exclusive))
  }

  function Take(ls: seq<Lock>, r: nat, ws: seq<Want>, n: nat): (t: seq<Lock>)
    requires InRange(ls, ws) && n <= |ws| && CanTake(ls, r, ws, n)
    ensures |t| == |ls|
    decreases n, 1
  {
    if n == 0 then ls
    else
      var t, w := Take(ls, r, ws, n - 1), ws[n - 1];
      t[w.lock := Granted(t[w.lock], r, w.exclusive)]
  }

  lemma {:induction false} TakeOk(ls: seq<Lock>, r: nat, ws: seq<Want>, n: nat)
    requires AllOk(ls) && InRange(ls, ws) && n <= |ws| && CanTake(ls, r, ws, n)
    ensures AllOk(Take(ls, r, ws, n))
  {
    if n > 0 { TakeOk(ls, r, ws, n - 1); }
  }

  /** Releasing what was just granted puts the lock back. */
  lemma ReleaseUndoes(a: Lock, b: Lock, r: nat, exclusive: bool)
    requires LockOk(a) && Grants(a, r, exclusive) && Same(b, Granted(a, r, exclusive))
    ensures b.counter > 0 && Same(Released(b), a)
  {
  }

  class LockTable {
    var locks: array<Lock>

    method LockOne(r: nat, exclusive: bool, i: nat) returns (success: bool)
      requires i < locks.Length
      modifies locks
      ensures success == Grants(old(locks[i]), r, exclusive)
      ensures locks[..] == (if success then old(locks[..])[i := Granted(old(locks[i]), r, exclusive)]
                           else old(locks[..]))
    {
      var lock := locks[i];
      success := true;
      if exclusive {
        match lock.mode {
          case Unlocked => locks[i] := Lock(Exclusive, lock.counter + 1, r);
          case Shared => success := false;
          case Exclusive =>
            if lock.owner == r { locks[i] := lock.(counter := lock.counter + 1); } else { success := false; }
        }
      } else {
        match lock.mode {
          case Unlocked => locks[i] := lock.(mode := Shared, counter := lock.counter + 1);
          case Shared => locks[i] := lock.(counter := lock.counter + 1);
          case Exclusive =>
            if lock.owner == r { locks[i] := lock.(counter := lock.counter + 1); } else { success := false; }
        }
      }
    }

    /** Both branches of unlock() end here; the lock is never found unlocked. */
    method UnlockOne(i: nat)
      requires i < locks.Length && locks[i].counter > 0
      modifies locks
      ensures locks[..] == old(locks[..])[i := Released(old(locks[i]))]
    {
      locks[i] := locks[i].(counter := locks[i].counter - 1);
      if locks[i].counter == 0 {
        locks[i] := locks[i].(mode := Unlocked);
      }
    }

    /** Releases the first n locks of a request, last one first. */
    method Rollback(r: nat, ws: seq<Want>, n: nat, ghost before: seq<Lock>)
      requires AllOk(before) && |before| == locks.Length && InRange(before, ws) && n <= |ws|
      requires CanTake(before, r, ws, n) && AllSame(locks[..], Take(before, r, ws, n))
      modifies locks
      ensures AllSame(locks[..], before)
    {
      var j := n;
      while j > 0
        invariant 0 <= j <= n && CanTake(before, r, ws, j) && AllSame(locks[..], Take(before, r, ws, j))
      {
        j := j - 1;
        TakeOk(before, r, ws, j);
        ghost var t := Take(before, r, ws, j);
        ReleaseUndoes(t[ws[j].lock], locks[ws[j].lock], r, ws[j].exclusive);
        UnlockOne(ws[j].lock);
      }
    }

    /** A lock request: all locks taken, or the table as it was. */
    method LockAll(r: nat, ws: seq<Want>) returns (success: bool)
      requires AllOk(locks[..]) && InRange(locks[..], ws)
      modifies locks
      ensures success == CanTake(old(locks[..]), r, ws, |ws|)
      ensures success ==> locks[..] == Take(old(locks[..]), r, ws, |ws|)
      ensures !success ==> AllSame(locks[..], old(locks[..]))
    {
      ghost var before := locks[..];
      var i := 0;
      while i < |ws|
        invariant 0 <= i <= |ws| && CanTake(before, r, ws, i) && locks[..] == Take(before, r, ws, i)
      {
        var ok := LockOne(r, ws[i].exclusive, ws[i].lock);
        if !ok {
          Rollback(r, ws, i, before);
          CannotTakeMore(before, r, ws, i + 1, |ws|);
          return false;
        }
        i := i + 1;
      }
      return true;
    }

    /** An unlock request for locks taken by the same request undoes it. */
    method UnlockAll(r: nat, ws: seq<Want>, ghost before: seq<Lock>)
      requires AllOk(before) && |before| == locks.Length && InRange(before, ws)
      requires CanTake(before, r, ws, |ws|) && AllSame(locks[..], Take(before, r, ws, |ws|))
      modifies locks
      ensures AllSame(locks[..], before)
    {
      Rollback(r, ws, |ws|, before);
    }
  }

  lemma {:induction false} CannotTakeMore(ls: seq<Lock>, r: nat, ws: seq<Want>, m: nat, n: nat)
    requires InRange(ls, ws) && m <= n <= |ws| && !CanTake(ls, r, ws, m)
    ensures !CanTake(ls, r, ws, n)
  {
    if m < n { CannotTakeMore(ls, r, ws, m, n - 1); }
  }

  // Requests served by several threads: the steps on single locks interleave.

  datatype Stage = Idle | Locking | GivingBack | Holding | Unlocking

  /** A requester's request. In every stage it holds the locks of the first n keys. */
  datatype Request = Request(stage: Stage, ws: seq<Want>, n: nat)

  /** send_lockserver_req puts the write set before the read set. */
  predicate ExclusiveFirst(ws: seq<Want>) {
    forall i, j :: 0 <= i < j < |ws| && ws[j].exclusive ==> ws[i].exclusive
  }

  /** The keys of a transaction's request: its write set, exclusively, then its read set. The
      lock of a key is its hash reduced to the size of the lock table. */
  method BuildRequest(writeSet: seq<nat>, readSet: seq<nat>, numLocks: nat) returns (ws: seq<Want>)
    requires numLocks > 0
    ensures ExclusiveFirst(ws) && |ws| == |writeSet| + |readSet|
    ensures forall i :: 0 <= i < |writeSet| ==> ws[i] == Want(true, writeSet[i] % numLocks)
    ensures forall i :: 0 <= i < |readSet| ==> ws[|writeSet| + i] == Want(false, readSet[i] % numLocks)
    ensures forall i :: 0 <= i < |ws| ==> ws[i].lock < numLocks
  {
    ws := [];
    for i := 0 to |writeSet|
      invariant |ws| == i && forall k :: 0 <= k < i ==> ws[k] == Want(true, writeSet[k] % numLocks)
    {
      ws := ws + [Want(true, writeSet[i] % numLocks)];
    }
    for i := 0 to |readSet|
      invariant |ws| == |writeSet| + i
      invariant forall k :: 0 <= k < |writeSet| ==> ws[k] == Want(true, writeSet[k] % numLocks)
      invariant forall k :: |writeSet| <= k < |ws| ==> ws[k] == Want(false, readSet[k - |writeSet|] % numLocks)
    {
      ws := ws + [Want(false, readSet[i] % numLocks)];
    }
  }

  datatype Server = Server(locks: seq<Lock>, reqs: map<nat, Request>)

  /** Start a lock request; take the next lock, or answer; release the last lock held, or
      answer; start the unlock request. */
  datatype Step = Ask(r: nat, ws: seq<Want>) | Try(r: nat) | Shed(r: nat) | AskUnlock(r: nat)

  predicate Valid(s: Server) {
    forall r :: r in s.reqs ==>
      && s.reqs[r].n <= |s.reqs[r].ws| && InRange(s.locks, s.reqs[r].ws) && ExclusiveFirst(s.reqs[r].ws)
      && (s.reqs[r].stage.Idle? ==> s.reqs[r].n == 0)
      && (s.reqs[r].stage.Holding? ==> s.reqs[r].n == |s.reqs[r].ws|)
  }

  predicate Enabled(s: Server, st: Step) {
    && st.r in s.reqs
    && match st
       case Ask(r, ws) => s.reqs[r].stage.Idle? && InRange(s.locks, ws) && ExclusiveFirst(ws)
       case Try(r) => s.reqs[r].stage.Locking?
       case Shed(r) => s.reqs[r].stage.GivingBack? || s.reqs[r].stage.Unlocking?
       case AskUnlock(r) => s.reqs[r].stage.Holding?
  }

  function Apply(s: Server, st: Step): (t: Server)
    requires Valid(s) && Enabled(s, st)
    ensures Valid(t)
  {
    var q := s.reqs[st.r];
    match st
    case Ask(r, ws) => s.(reqs := s.reqs[r := Request(Locking, ws, 0)])
    case Try(r) =>
      if q.n == |q.ws| then s.(reqs := s.reqs[r := q.(stage := Holding)])
      else
        var w := q.ws[q.n];
        if Grants(s.locks[w.lock], r, w.exclusive)
        then Server(s.locks[w.lock := Granted(s.locks[w.lock], r, w.exclusive)], s.reqs[r := q.(n := q.n + 1)])
        else s.(reqs := s.reqs[r := q.(stage := GivingBack)])
    case Shed(r) =>
      if q.n == 0 then s.(reqs := s.reqs[r := Request(Idle, [], 0)])
      else
        var i := q.ws[q.n - 1].lock;
        // a counter that is already zero would wrap around; RunsAreSafe excludes it
        Server(s.locks[i := if s.locks[i].counter > 0 then Released(s.locks[i]) else s.locks[i]],
               s.reqs[r := q.(n := q.n - 1)])
    case AskUnlock(r) => s.(reqs := s.reqs[r := q.(stage := Unlocking)])
  }

  predicate Initial(s: Server) {
    && (forall i :: 0 <= i < |s.locks| ==> s.locks[i].mode.Unlocked? && s.locks[i].counter == 0)
    && (forall r :: r in s.reqs ==> s.reqs[r] == Request(Idle, [], 0))
  }

  ghost predicate Run(s: Server, steps: seq<Step>, t: Server)
    requires Valid(s)
    decreases steps
  {
    if steps == [] then s == t else Enabled(s, steps[0]) && Run(Apply(s, steps[0]), steps[1..], t)
  }

  /** The holds on a lock: requester, and position among its keys. */
  ghost function Holds(reqs: map<nat, Request>, i: nat): set<(nat, nat)> {
    set r, k | r in reqs && 0 <= k < reqs[r].n && k < |reqs[r].ws| && reqs[r].ws[k].lock == i :: (r, k)
  }

  /** A hold that was asked for exclusively. */
  predicate ExclusiveHold(reqs: map<nat, Request>, h: (nat, nat)) {
    h.0 in reqs && h.1 < |reqs[h.0].ws| && reqs[h.0].ws[h.1].exclusive
  }

  /** A lock that is what a set of holds makes it: the counter counts them; in exclusive mode
      they are all the owner's and one is exclusive; in shared mode none is exclusive. */
  ghost predicate LockIs(l: Lock, reqs: map<nat, Request>, holds: set<(nat, nat)>) {
    && l.counter == |holds| && LockOk(l)
    && (l.mode.Exclusive? ==>
          && (forall h :: h in holds ==> h.0 == l.owner)
          && (exists h :: h in holds && ExclusiveHold(reqs, h)))
    && (l.mode.Shared? ==> forall h :: h in holds ==> !ExclusiveHold(reqs, h))
  }

  ghost predicate HoldsOk(l: Lock, reqs: map<nat, Request>, i: nat) {
    LockIs(l, reqs, Holds(reqs, i))
  }

  ghost predicate Inv(s: Server) {
    Valid(s) && forall i :: 0 <= i < |s.locks| ==> HoldsOk(s.locks[i], s.reqs, i)
  }

  /** Changing a request's stage, or starting one, changes no hold. */
  lemma HoldsSame(l: Lock, reqs: map<nat, Request>, r: nat, q: Request, i: nat)
    requires r in reqs && HoldsOk(l, reqs, i)
    requires q.n == reqs[r].n && (q.ws == reqs[r].ws || q.n == 0)
    ensures HoldsOk(l, reqs[r := q], i)
  {
    assert Holds(reqs[r := q], i) == Holds(reqs, i);
    SameExclusive(reqs, r, q, i);
    hide Holds;
  }

  lemma SameExclusive(reqs: map<nat, Request>, r: nat, q: Request, i: nat)
    requires r in reqs && (q.ws == reqs[r].ws || reqs[r].n == 0)
    ensures forall h :: h in Holds(reqs, i) ==> (ExclusiveHold(reqs[r := q], h) <==> ExclusiveHold(reqs, h))
  {
  }

  /** One hold more for r, on the lock of its next key. */
  lemma HoldsMore(reqs: map<nat, Request>, r: nat, i: nat)
    requires r in reqs && reqs[r].n < |reqs[r].ws|
    ensures var q := reqs[r];
            Holds(reqs[r := q.(n := q.n + 1)], i)
            == (if q.ws[q.n].lock == i then Holds(reqs, i) + {(r, q.n)} else Holds(reqs, i))
    ensures (r, reqs[r].n) !in Holds(reqs, i)
  {
  }

  lemma GrantIs(l: Lock, reqs: map<nat, Request>, holds: set<(nat, nat)>, h: (nat, nat))
    requires LockIs(l, reqs, holds) && h !in holds && Grants(l, h.0, ExclusiveHold(reqs, h))
    ensures LockIs(Granted(l, h.0, ExclusiveHold(reqs, h)), reqs, holds + {h})
  {
    if l.mode.Unlocked? { assert holds == {} && h in holds + {h}; }
    if l.mode.Exclusive? {
      var g :| g in holds && ExclusiveHold(reqs, g);
      assert g in holds + {h};
    }
  }

  lemma ReleaseIs(l: Lock, reqs: map<nat, Request>, holds: set<(nat, nat)>, h: (nat, nat))
    requires LockIs(l, reqs, holds) && h in holds
    requires l.mode.Exclusive? && holds != {h} ==> exists g :: g in holds - {h} && ExclusiveHold(reqs, g)
    ensures l.counter > 0 && LockIs(Released(l), reqs, holds - {h})
  {
    assert |holds - {h}| == |holds| - 1;
    if l.counter == 1 { assert holds - {h} == {}; }
    if holds == {h} { assert holds - {h} == {}; }
  }

  /** Moving a request on or back leaves its keys, and so what each hold was asked for. */
  lemma SameKeys(l: Lock, reqs: map<nat, Request>, r: nat, n: nat, holds: set<(nat, nat)>)
    requires r in reqs
    ensures LockIs(l, reqs[r := reqs[r].(n := n)], holds) <==> LockIs(l, reqs, holds)
  {
    var moved := reqs[r := reqs[r].(n := n)];
    assert forall h :: ExclusiveHold(moved, h) <==> ExclusiveHold(reqs, h);
  }

  lemma GrantHolds(l: Lock, reqs: map<nat, Request>, r: nat, i: nat)
    requires r in reqs && reqs[r].n < |reqs[r].ws| && HoldsOk(l, reqs, i)
    ensures var q := reqs[r];
            if q.ws[q.n].lock != i then HoldsOk(l, reqs[r := q.(n := q.n + 1)], i)
            else Grants(l, r, q.ws[q.n].exclusive) ==>
                   HoldsOk(Granted(l, r, q.ws[q.n].exclusive), reqs[r := q.(n := q.n + 1)], i)
  {
    var q := reqs[r];
    HoldsMore(reqs, r, i);
    hide Holds, LockIs;
    if q.ws[q.n].lock != i {
      SameKeys(l, reqs, r, q.n + 1, Holds(reqs, i));
    } else if Grants(l, r, q.ws[q.n].exclusive) {
      GrantIs(l, reqs, Holds(reqs, i), (r, q.n));
      SameKeys(Granted(l, r, q.ws[q.n].exclusive), reqs, r, q.n + 1, Holds(reqs, i) + {(r, q.n)});
    }
  }

  /** In exclusive mode the holds are one requester's, and its exclusive keys come first: as
      long as it holds the lock at all, it does so exclusively. */
  lemma StillExclusive(reqs: map<nat, Request>, fewer: map<nat, Request>, r: nat, i: nat, owner: nat)
    requires r in reqs && 0 < reqs[r].n <= |reqs[r].ws| && ExclusiveFirst(reqs[r].ws)
    requires fewer == reqs[r := reqs[r].(n := reqs[r].n - 1)]
    requires forall h :: h in Holds(reqs, i) ==> h.0 == owner
    requires exists h :: h in Holds(reqs, i) && ExclusiveHold(reqs, h)
    requires Holds(fewer, i) != {} && Holds(fewer, i) <= Holds(reqs, i)
    ensures exists h :: h in Holds(fewer, i) && ExclusiveHold(reqs, h)
  {
    var h :| h in Holds(reqs, i) && ExclusiveHold(reqs, h);
    if h in Holds(fewer, i) {
      assert ExclusiveHold(reqs, h);
    } else {
      var g :| g in Holds(fewer, i);
      assert ExclusiveHold(reqs, g);
    }
  }

  /** One hold fewer for r, on the lock of its last key. */
  lemma HoldsFewer(reqs: map<nat, Request>, r: nat, i: nat)
    requires r in reqs && 0 < reqs[r].n <= |reqs[r].ws|
    ensures var q := reqs[r];
            Holds(reqs[r := q.(n := q.n - 1)], i)
            == (if q.ws[q.n - 1].lock == i then Holds(reqs, i) - {(r, q.n - 1)} else Holds(reqs, i))
    ensures reqs[r].ws[reqs[r].n - 1].lock == i ==> (r, reqs[r].n - 1) in Holds(reqs, i)
  {
    var q := reqs[r];
    var fewer := reqs[r := q.(n := q.n - 1)];
    HoldsMore(fewer, r, i);
    assert fewer[r := fewer[r].(n := fewer[r].n + 1)] == reqs;
    hide Holds;
  }

  lemma ReleaseHolds(l: Lock, reqs: map<nat, Request>, r: nat, i: nat)
    requires r in reqs && 0 < reqs[r].n <= |reqs[r].ws| && ExclusiveFirst(reqs[r].ws) && HoldsOk(l, reqs, i)
    ensures var q := reqs[r];
            var fewer := reqs[r := q.(n := q.n - 1)];
            if q.ws[q.n - 1].lock != i then HoldsOk(l, fewer, i)
            else l.counter > 0 && HoldsOk(Released(l), fewer, i)
  {
    var q := reqs[r];
    var fewer, h := reqs[r := q.(n := q.n - 1)], (r, q.n - 1);
    HoldsFewer(reqs, r, i);
    if q.ws[q.n - 1].lock == i {
      if l.mode.Exclusive? { OneLeft(l, reqs, r, i); }
      hide Holds, LockIs, ExclusiveFirst;
      ReleaseIs(l, reqs, Holds(reqs, i), h);
      SameKeys(Released(l), reqs, r, q.n - 1, Holds(fewer, i));
    } else {
      hide Holds, LockIs;
      SameKeys(l, reqs, r, q.n - 1, Holds(reqs, i));
    }
  }

  lemma OneLeft(l: Lock, reqs: map<nat, Request>, r: nat, i: nat)
    requires r in reqs && 0 < reqs[r].n <= |reqs[r].ws| && ExclusiveFirst(reqs[r].ws) && HoldsOk(l, reqs, i)
    requires reqs[r].ws[reqs[r].n - 1].lock == i && l.mode.Exclusive?
    ensures var h := (r, reqs[r].n - 1);
            Holds(reqs, i) != {h} ==> exists g :: g in Holds(reqs, i) - {h} && ExclusiveHold(reqs, g)
  {
    HoldsFewer(reqs, r, i);
    var h, fewer := (r, reqs[r].n - 1), reqs[r := reqs[r].(n := reqs[r].n - 1)];
    hide Holds;
    if Holds(reqs, i) != {h} {
      assert Holds(fewer, i) != {};
      StillExclusive(reqs, fewer, r, i, l.owner);
    }
  }

  lemma TryKeeps(s: Server, r: nat, i: nat)
    requires Inv(s) && Enabled(s, Try(r)) && i < |s.locks|
    ensures HoldsOk(Apply(s, Try(r)).locks[i], Apply(s, Try(r)).reqs, i)
  {
    hide HoldsOk;
    var q := s.reqs[r];
    assert HoldsOk(s.locks[i], s.reqs, i);
    if q.n < |q.ws| && Grants(s.locks[q.ws[q.n].lock], r, q.ws[q.n].exclusive) {
      GrantHolds(s.locks[i], s.reqs, r, i);
    } else {
      HoldsSame(s.locks[i], s.reqs, r, Apply(s, Try(r)).reqs[r], i);
    }
  }

  lemma ShedKeeps(s: Server, r: nat, i: nat)
    requires Inv(s) && Enabled(s, Shed(r)) && i < |s.locks|
    ensures HoldsOk(Apply(s, Shed(r)).locks[i], Apply(s, Shed(r)).reqs, i)
  {
    hide HoldsOk;
    var q := s.reqs[r];
    assert HoldsOk(s.locks[i], s.reqs, i);
    if q.n > 0 {
      ReleaseHolds(s.locks[i], s.reqs, r, i);
    } else {
      HoldsSame(s.locks[i], s.reqs, r, Request(Idle, [], 0), i);
    }
  }

  lemma StepKeeps(s: Server, st: Step)
    requires Inv(s) && Enabled(s, st)
    ensures Inv(Apply(s, st))
  {
    forall i | 0 <= i < |s.locks| ensures HoldsOk(Apply(s, st).locks[i], Apply(s, st).reqs, i) {
      match st
      case Ask(r, ws) => HoldsSame(s.locks[i], s.reqs, r, Request(Locking, ws, 0), i);
      case Try(r) => TryKeeps(s, r, i);
      case Shed(r) => ShedKeeps(s, r, i);
      case AskUnlock(r) => HoldsSame(s.locks[i], s.reqs, r, s.reqs[r].(stage := Unlocking), i);
    }
  }

  lemma {:induction false} RunKeeps(s: Server, steps: seq<Step>, t: Server)
    requires Inv(s) && Run(s, steps, t)
    ensures Inv(t)
    decreases steps
  {
    if steps != [] {
      StepKeeps(s, steps[0]);
      RunKeeps(Apply(s, steps[0]), steps[1..], t);
    }
  }

  lemma InitialInv(s: Server)
    requires Initial(s)
    ensures Inv(s)
  {
    forall i ensures Holds(s.reqs, i) == {} {}
  }

  /** In every interleaving: the counter is the number of holds, an exclusive hold excludes
      every other requester, and a release always finds its lock held by the releaser. */
  lemma RunsAreSafe(s: Server, steps: seq<Step>, t: Server, i: nat)
    requires Initial(s) && Valid(s) && Run(s, steps, t) && i < |t.locks|
    ensures Valid(t) && t.locks[i].counter == |Holds(t.reqs, i)|
    ensures forall g, h :: g in Holds(t.reqs, i) && h in Holds(t.reqs, i) && t.reqs[g.0].ws[g.1].exclusive ==>
                             h.0 == g.0
    ensures forall r :: r in t.reqs && t.reqs[r].n > 0 && t.reqs[r].ws[t.reqs[r].n - 1].lock == i ==>
              && t.locks[i].counter > 0 && !t.locks[i].mode.Unlocked?
              && (t.locks[i].mode.Exclusive? ==> t.locks[i].owner == r)
              && (t.reqs[r].ws[t.reqs[r].n - 1].exclusive ==> t.locks[i].mode.Exclusive?)
  {
    InitialInv(s);
    RunKeeps(s, steps, t);
    assert HoldsOk(t.locks[i], t.reqs, i);
    forall r | r in t.reqs && t.reqs[r].n > 0 && t.reqs[r].ws[t.reqs[r].n - 1].lock == i
      ensures t.locks[i].counter > 0 && !t.locks[i].mode.Unlocked?
      ensures t.locks[i].mode.Exclusive? ==> t.locks[i].owner == r
      ensures t.reqs[r].ws[t.reqs[r].n - 1].exclusive ==> t.locks[i].mode.Exclusive?
    {
      assert (r, t.reqs[r].n - 1) in Holds(t.reqs, i);
    }
  }

  /** In every interleaving, a refused lock is one some other requester holds: since exclusive
      keys come first, re-entry through a hash collision is never refused. */
  lemma RefusalHasCause(s: Server, steps: seq<Step>, t: Server, r: nat)
    requires Initial(s) && Valid(s) && Run(s, steps, t) && Valid(t) &&
             Enabled(t, Try(r)) && t.reqs[r].n < |t.reqs[r].ws|
    requires var w := t.reqs[r].ws[t.reqs[r].n]; !Grants(t.locks[w.lock], r, w.exclusive)
    ensures exists h :: h in Holds(t.reqs, t.reqs[r].ws[t.reqs[r].n].lock) && h.0 != r
  {
    InitialInv(s);
    RunKeeps(s, steps, t);
    var q := t.reqs[r];
    var i := q.ws[q.n].lock;
    assert HoldsOk(t.locks[i], t.reqs, i);
    assert ExclusiveFirst(q.ws);
    var h :| h in Holds(t.reqs, i);
  }

  /** The holds of everyone but r. */
  ghost function OthersHolds(reqs: map<nat, Request>, r: nat, i: nat): set<(nat, nat)> {
    set h | h in Holds(reqs, i) && h.0 != r
  }

  /** In every interleaving, when a refused request or an unlock request has been answered,
      every lock is what the holds of the other requesters alone make it: their number,
      exclusive exactly if one of them is, and then owned by them. */
  lemma AnsweredLeavesOthers(s: Server, steps: seq<Step>, t: Server, r: nat, i: nat)
    requires Initial(s) && Valid(s) && Run(s, steps, t) && Valid(t) && Enabled(t, Shed(r)) && t.reqs[r].n == 0
    requires i < |t.locks|
    ensures var u := Apply(t, Shed(r));
            var l, others := u.locks[i], OthersHolds(u.reqs, r, i);
            && u.reqs[r].stage.Idle?
            && l.counter == |others| && (l.mode.Unlocked? <==> others == {})
            && (l.mode.Exclusive? <==> exists h :: h in others && ExclusiveHold(u.reqs, h))
            && (l.mode.Exclusive? ==> forall h :: h in others ==> h.0 == l.owner)
  {
    InitialInv(s);
    RunKeeps(s, steps, t);
    StepKeeps(t, Shed(r));
    var u := Apply(t, Shed(r));
    assert HoldsOk(u.locks[i], u.reqs, i);
    assert OthersHolds(u.reqs, r, i) == Holds(u.reqs, i);
    hide Inv, Run, Holds, OthersHolds;
  }
}
